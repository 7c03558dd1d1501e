# Portfolio content pipeline, modelled in Dafny

This project models the logic of a React portfolio site. The site reads its projects and research articles from markdown files, each starting with a frontmatter block. The model covers:

- **Loading** (`asjad/src/utils/markdownLoader.ts`):
  - `loadMarkdownFiles` fetches a collection's `index.json`, fetches every file listed there, splits each file into a frontmatter map and a body, and derives a slug from the file name.
  - `parseFrontmatter` recognises the frontmatter with two regular expressions, tried one after the other.
  - `parseYamlLikeFrontmatter` turns the block into a flat string-to-string map.
  - `parseMarkdown` ends with a chain of textual replacements that adds CSS classes to the HTML.
- **Record mapping** (the list components and detail pages):
  - build `Project` and `Article` records from the frontmatter, with placeholder titles, empty-string defaults and comma-separated lists;
  - show the first three projects or the first two articles on the home page, or all of them on the "all" pages;
  - find a record by slug on the detail pages;
  - track the `loading` / not-found state of each component.
- **The typewriter** (`HomeSection.tsx`): a hook that types, pauses, deletes and cycles through a list of strings.

The network is replaced by its outcomes:

- `IndexResponse.IndexUnavailable` means the index could not be read (rejected fetch, non-`ok` response, or a body that is not an array).
- Otherwise each listed file name is paired with a `FileResponse`. `FetchFailed` stands for a rejected fetch or `text()` call. `Fetched(text)` stands for any body, including the body of an error status, which the loader does not check.

The Markdown library itself is not modelled. The replacement chain works on whatever HTML string the library returns.

Modules:

- `Strings` models the JavaScript string built-ins used by the pipeline (`trim`, `indexOf`, `replace`, `split`) over the exact ECMAScript whitespace set.
- `YamlLike` and `Frontmatter` model the two parsers. The two regular expressions are written as scanners. Lemmas prove that each scanner reports the match JavaScript's backtracking engine chooses: greedy runs as long as possible, the lazy group as short as possible.
- `Render` models the class-injection chain.
- `Loader` models `loadMarkdownFiles` and the lookup by slug.
- `Fields`, `Records` and `Pages` model the page logic. The state of each component is a class whose effect is a method.
- `Typewriter` models `useTypewriterLoop`, as a transition function plus a class with a `Step` method.

## Model

| member | source | states |
|---|---|---|
| Strings.Trim | asjad/src/utils/markdownLoader.ts:89 | `trim` returns a text with no leading or trailing whitespace, no longer than its input |
| Strings.TrimIgnoresPadding | asjad/src/utils/markdownLoader.ts:50 | whitespace added on either side does not change what `trim` returns |
| Strings.IndexOf | asjad/src/utils/markdownLoader.ts:31 | `indexOf(p)` returns the first position where `p` occurs, and `None` exactly when `p` does not occur |
| Strings.IndexOfChar | asjad/src/utils/markdownLoader.ts:92 | `indexOf(':')` returns the first colon, with no colon before it, and `None` exactly when there is no colon |
| Strings.SplitLines | asjad/src/utils/markdownLoader.ts:86 | `split(/[\r\n]+/)` gives at least one piece, and no piece contains a line break |
| Strings.SplitLinesOfLine | asjad/src/utils/markdownLoader.ts:86 | a text without a line break is a single piece, itself |
| Strings.SplitLinesAtBreaks | asjad/src/utils/markdownLoader.ts:86 | the cuts fall exactly at the maximal runs of line breaks: a break-free line followed by a run of breaks is the first piece, and the pieces of what follows the run come after it |
| Strings.SplitLinesKeepsText | asjad/src/utils/markdownLoader.ts:86 | the pieces, concatenated, are the text with its line breaks removed |
| Strings.Split | asjad/src/components/DynamicProjects.tsx:32 | `split(',')` gives at least one piece, and no piece contains the separator |
| Strings.JoinSplit | asjad/src/components/DynamicProjects.tsx:32 | joining the pieces of `split(',')` with `,` gives back the text |
| Strings.SplitCount | asjad/src/components/DynamicProjects.tsx:32 | `split(',')` keeps empty pieces, so there is one more piece than there are commas |
| Strings.SplitJoin | asjad/src/pages/AllProjects.tsx:33 | splitting pieces that were joined by a separator they do not contain gives the pieces back |
| Strings.ReplaceAllAbsent | asjad/src/utils/markdownLoader.ts:125 | a global replace whose pattern does not occur leaves the text unchanged |
| Strings.ReplaceAllSplit | asjad/src/utils/markdownLoader.ts:125 | when no occurrence of the pattern straddles the cut between two texts, replacing in the concatenation is replacing in each part and concatenating |
| Strings.ReplaceFirst | asjad/src/utils/markdownLoader.ts:31 | `replace(p, r)` with a string pattern leaves the text unchanged when `p` does not occur, and otherwise replaces exactly the first occurrence by `r` |
| Strings.ReplaceAll | asjad/src/utils/markdownLoader.ts:125-141 | the global replace; specified by `ReplaceAllAbsent` (no occurrence, no change) and `ReplaceAllSplit` (it distributes over cuts that split no occurrence) |
| Strings.TrimIsInfix | asjad/src/utils/markdownLoader.ts:89 | the trimmed text is a contiguous part of the input with only whitespace cut off on either side |
| YamlLike.Unquote | asjad/src/utils/markdownLoader.ts:100-104 | a value that starts and ends with the same quote loses exactly its first and last character; a lone `"` or `'` becomes empty; a value whose quotes are one-sided or mismatched is unchanged |
| YamlLike.UnquoteQuoted | asjad/src/utils/markdownLoader.ts:101-103 | only one pair of quotes comes off, whatever lies inside, including further quotes |
| YamlLike.FirstColonSplit | asjad/src/utils/markdownLoader.ts:92-96 | the key is the text before the first colon; splitting there is the only split whose key has no colon, so every later colon belongs to the value |
| YamlLike.LineEntry | asjad/src/utils/markdownLoader.ts:89-98 | a line that gives an entry has a non-empty, trimmed key, and its trimmed text is neither blank nor a `#` comment |
| YamlLike.Assign | asjad/src/utils/markdownLoader.ts:107 | `frontmatter[key] = value` stores the value under the key and leaves every other key as it was; assigning `__proto__` changes nothing |
| YamlLike.LineEntryMeaning | asjad/src/utils/markdownLoader.ts:89-98 | a line adds nothing when, trimmed, it is blank, starts with `#`, has no colon, or has an empty trimmed key; otherwise it gives the trimmed key and the trimmed, unquoted value |
| YamlLike.Entries | asjad/src/utils/markdownLoader.ts:86-88 | the loop handles the lines one by one, in order |
| YamlLike.Build | asjad/src/utils/markdownLoader.ts:88-108 | the map after the loop; specified by `BuildMeaning` (its keys and their last-defined values) |
| YamlLike.Decode | asjad/src/utils/markdownLoader.ts:84-112 | the map of `parseYamlLikeFrontmatter`; specified by `DecodeLinesKeys` and `DecodeLinesLastWins`, and computed by `ParseYamlLikeFrontmatter` |
| YamlLike.BuildMeaning | asjad/src/utils/markdownLoader.ts:106-107 | the keys of the map are exactly the keys some line defines, except `__proto__`; a key holds the value of the last line that defines it |
| YamlLike.DecodeLinesKeys | asjad/src/utils/markdownLoader.ts:88-107 | a key is in the result exactly when some line defines it and it is not `__proto__` |
| YamlLike.DecodeLinesLastWins | asjad/src/utils/markdownLoader.ts:106-107 | a repeated key keeps the value of its last line, and an empty value is stored as `""` |
| YamlLike.ReadLine | asjad/src/utils/markdownLoader.ts:89-104 | the loop body, written step by step, gives the entry `LineEntry` specifies |
| YamlLike.ParseYamlLikeFrontmatter | asjad/src/utils/markdownLoader.ts:84-112 | the loop that assigns into the map gives the map `Decode` specifies; the loop invariant is the fold over the lines read so far |
| Frontmatter.StrictMatch | asjad/src/utils/markdownLoader.ts:49-50 | `None` exactly when the strict pattern cannot match the trimmed text; otherwise the groups the engine reports |
| Frontmatter.StrictNoMatch | asjad/src/utils/markdownLoader.ts:49-52 | without an opening `---` or without a scan result, no way to match the strict pattern exists |
| Frontmatter.StrictScanPriority | asjad/src/utils/markdownLoader.ts:49 | no match of the strict pattern has a later header end than the scan's, and none with the same header end closes earlier |
| Frontmatter.StrictChosenOfScan | asjad/src/utils/markdownLoader.ts:49 | the scan's positions form the match that backtracking picks |
| Frontmatter.StrictChosenUnique | asjad/src/utils/markdownLoader.ts:49 | the match the engine picks is unique |
| Frontmatter.NextFence | asjad/src/utils/markdownLoader.ts:55 | returns the first `---` at or after a position, none before it, or `None` when there is none |
| Frontmatter.AltMatch | asjad/src/utils/markdownLoader.ts:55-56 | `None` exactly when the fallback pattern cannot match; otherwise group 1 ends at the first `---` after the opening one and group 2 starts after the whitespace that follows |
| Frontmatter.AltChosenOfFence | asjad/src/utils/markdownLoader.ts:55 | the first closing `---` and the longest whitespace run after it form the match the engine reports |
| Frontmatter.AltNoMatch | asjad/src/utils/markdownLoader.ts:55-58 | without an opening `---` followed by a second `---`, the fallback pattern does not match |
| Frontmatter.AltChosenUnique | asjad/src/utils/markdownLoader.ts:55 | the fallback match the engine reports is unique |
| Frontmatter.ParseFrontmatter | asjad/src/utils/markdownLoader.ts:45-82 | `parseFrontmatter`; specified by `ParseWithoutMatch`, `ParseUnfenced`, `ParseStrict`, `ParseAlt` and `ParseContentTrimmed` |
| Frontmatter.ParseWithoutMatch | asjad/src/utils/markdownLoader.ts:49-61 | the frontmatter is empty and the content is the original, untrimmed text exactly when neither pattern matches the trimmed text |
| Frontmatter.ParseUnfenced | asjad/src/utils/markdownLoader.ts:50-60 | a document whose trimmed text does not start with `---` comes back unchanged, with no frontmatter |
| Frontmatter.ParseStrict | asjad/src/utils/markdownLoader.ts:73-81 | when the strict pattern matches, the map is decoded from its group 1 and the content is group 2, trimmed |
| Frontmatter.ParseAlt | asjad/src/utils/markdownLoader.ts:64-70 | when only the fallback matches, the map is decoded from exactly the text between the first two `---`, and the content is what follows, trimmed |
| Frontmatter.ParseContentTrimmed | asjad/src/utils/markdownLoader.ts:60-81 | the content is either the document itself or trimmed text |
| Render.Apply | asjad/src/utils/markdownLoader.ts:124-141 | the chain of replaces, first rule first; specified by `ApplyClears`, `ApplyAbsent` and `ApplyAroundClosing` |
| Render.InjectClasses | asjad/src/utils/markdownLoader.ts:124-141 | the whole class-injection pass; specified by `NoBareTagRemains`, `UntouchedWithoutBareTags`, `ClosingTagUntouched` and `CodeInPreGetsTwoClasses` |
| Render.TagRules | asjad/src/utils/markdownLoader.ts:125-140 | rule `i` of the chain turns bare tag `i` into that tag with its class list |
| Render.RulesStyleTags | asjad/src/utils/markdownLoader.ts:125-141 | the chain has one rule per styled tag, in source order, then the `<pre><code` rule |
| Render.ReplaceAllClears | asjad/src/utils/markdownLoader.ts:125-141 | a global replace removes its own bare tag, and a later replacement cannot bring back a bare tag an earlier step removed |
| Render.ApplyClears | asjad/src/utils/markdownLoader.ts:125-141 | a bare tag cleared by its rule stays cleared through the rest of the chain |
| Render.NoBareTagRemains | asjad/src/utils/markdownLoader.ts:124-141 | afterwards none of the 16 bare opening tags `<h1>`…`<h6>`, `<p>`, `<ul>`, `<ol>`, `<li>`, `<blockquote>`, `<table>`, `<th>`, `<td>`, `<code>`, `<pre>` is left, whatever the input |
| Render.ApplyAbsent | asjad/src/utils/markdownLoader.ts:124-141 | text in which no rule finds its pattern passes through the chain unchanged |
| Render.UntouchedWithoutBareTags | asjad/src/utils/markdownLoader.ts:124-141 | HTML with no bare styled tag (only closing tags, tags with attributes and text) is returned unchanged |
| Render.ClosingTagUntouched | asjad/src/utils/markdownLoader.ts:124-141 | a closing tag `</n>`, its name free of `<`, is left as it is and cuts the document: the pass acts on the text before it and on the text after it separately |
| Render.UntouchedWithoutTags | asjad/src/utils/markdownLoader.ts:124-141 | text containing no `<` is returned unchanged |
| Render.CodeInPreDoublesClass | asjad/src/utils/markdownLoader.ts:139-141 | after the earlier rules, a `<code class=…>` directly inside a styled `<pre>` gets a second `class` attribute, inserted before the first |
| Render.CodeInPreGetsTwoClasses | asjad/src/utils/markdownLoader.ts:124-141 | through the whole chain, a document starting `<pre><code>` followed by text with no `<` becomes `<pre class="bg-muted p-4 …"><code class="font-mono text-sm" class="bg-muted px-1 …">` followed by that text |
| Loader.Slug | asjad/src/utils/markdownLoader.ts:31 | a file name without `.md` is unchanged; otherwise the slug is three characters shorter |
| Loader.SlugWithoutExtension | asjad/src/utils/markdownLoader.ts:31 | a file name without `.md` is its own slug |
| Loader.SlugDropsFirstExtension | asjad/src/utils/markdownLoader.ts:31 | the slug removes the FIRST `.md`, wherever it is, and keeps any later one |
| Loader.LoadFile | asjad/src/utils/markdownLoader.ts:19-35 | a record has the slug of its file name, and the frontmatter and content of its parsed body |
| Loader.LoadAll | asjad/src/utils/markdownLoader.ts:18-36 | `Promise.all` fails exactly when some fetch failed; otherwise it gives one record per listed file, at the same position |
| Loader.LoadMarkdownFiles | asjad/src/utils/markdownLoader.ts:10-43 | `loadMarkdownFiles`; specified by `IndexUnavailableLoadsNothing`, `FailedFetchLoadsNothing` and `LoadedInIndexOrder` |
| Loader.IndexUnavailableLoadsNothing | asjad/src/utils/markdownLoader.ts:13-14 | when the index cannot be read, the result is `[]` |
| Loader.FailedFetchLoadsNothing | asjad/src/utils/markdownLoader.ts:18-21 | one failed file fetch empties the whole result, through the `catch` at lines 39-42 |
| Loader.LoadedInIndexOrder | asjad/src/utils/markdownLoader.ts:18-36 | when every fetch succeeds there is exactly one record per listed name, in index order, with that name's slug and that body's parse |
| Loader.FindBySlug | asjad/src/pages/ProjectDetail.tsx:29 | `find` returns `None` exactly when no record has the slug; otherwise a record with the slug that no earlier record shares |
| Loader.FindBySlugFirst | asjad/src/pages/ArticleDetail.tsx:29 | when several records share the slug, the earliest one is returned |
| Fields.TextOr | asjad/src/pages/ProjectDetail.tsx:34-35 | `fm.key or-else fallback` is the value when it is present and non-empty, otherwise the fallback; it is empty only when the value is missing or empty and the fallback is empty |
| Fields.Optional | asjad/src/pages/ProjectDetail.tsx:41-43 | a copied field is `None` exactly when the key is missing; an empty value is kept |
| Fields.ListField | asjad/src/pages/ProjectDetail.tsx:36-40 | `[]` when the value is missing or empty; otherwise one item per comma plus one, each trimmed and free of commas |
| Fields.ListFieldPieces | asjad/src/components/DynamicProjects.tsx:32 | the items are the trimmed comma-separated pieces, and the untrimmed pieces joined by commas give back the value |
| Fields.ListFieldRoundTrip | asjad/src/pages/AllProjects.tsx:32-34 | trimmed, comma-free items written joined by commas read back as exactly those items |
| Records.ToProject | asjad/src/components/DynamicProjects.tsx:28-36 | the slug is kept; the title is the frontmatter title when non-empty and `"Untitled Project"` otherwise, so it is never empty; the description is empty exactly when missing or empty; `image` is present exactly when the key is |
| Records.ToProjectPage | asjad/src/pages/ProjectDetail.tsx:32-45 | the page record carries the file's content unchanged |
| Records.ToArticle | asjad/src/components/DynamicResearchArticles.tsx:29-38 | the slug is kept; the title falls back to `"Untitled Article"` and is never empty; the abstract is empty exactly when missing or empty; `image` is present exactly when the key is |
| Records.ToArticlePage | asjad/src/pages/ArticleDetail.tsx:32-45 | the page record carries the file's content unchanged |
| Records.ProjectFields | asjad/src/pages/AllProjects.tsx:28-38 | every project field in terms of the frontmatter: title and description fallbacks, `tech` is exactly the list field: empty or one trimmed item per piece; `image`/`url`/`github` copied |
| Records.ProjectPageAgrees | asjad/src/pages/ProjectDetail.tsx:32-45 | the detail page's record has the same fields as the list record, plus the content |
| Records.ArticleFields | asjad/src/pages/AllArticles.tsx:29-40 | every article field: fallbacks for title, abstract, journal and date; `tags` is exactly the list field: empty or one trimmed item per piece; `image` and `url` copied |
| Records.ArticlePageAgrees | asjad/src/pages/ArticleDetail.tsx:32-45 | the detail record has the list record's fields except `image`, plus the content |
| Records.MapProjects | asjad/src/pages/AllProjects.tsx:28-38 | one project per file, in the same order |
| Records.MapArticles | asjad/src/pages/AllArticles.tsx:29-40 | one article per file, in the same order |
| Records.MapKeepsSlugs | asjad/src/components/DynamicResearchArticles.tsx:29-30 | the mapped lists keep the slugs of the files, position by position |
| Records.Take | asjad/src/components/DynamicProjects.tsx:64 | `slice(0, n)` is the prefix of length `min(n, length)` |
| Records.TakeKeepsOrder | asjad/src/components/DynamicResearchArticles.tsx:66 | the slice keeps items at their positions, and is the whole list when it is short enough |
| Records.FindProjectPage | asjad/src/pages/ProjectDetail.tsx:29-47 | no project exactly when no file has the slug |
| Records.FindArticlePage | asjad/src/pages/ArticleDetail.tsx:29-47 | no article exactly when no file has the slug |
| Records.FindProjectPageFirst | asjad/src/pages/ProjectDetail.tsx:29-31 | the page shown is built from the first file with the slug |
| Records.AbstractShownIff | asjad/src/pages/ArticleDetail.tsx:138 | the Abstract block appears exactly when the frontmatter has a non-empty `abstract` |
| Pages.ProjectList.constructor | asjad/src/components/DynamicProjects.tsx:21-22 | starts with no projects, loading |
| Pages.ProjectList.Load | asjad/src/components/DynamicProjects.tsx:24-46 | the effect stores the mapped files and always ends with `loading` false |
| Pages.ProjectList.FeaturedView | asjad/src/components/DynamicProjects.tsx:48-64 | shows the loading message while loading, and afterwards the first `min(3, n)` projects |
| Pages.ProjectList.AllView | asjad/src/pages/AllProjects.tsx:50-80 | shows every project, in order, once loaded |
| Pages.ArticleList.constructor | asjad/src/components/DynamicResearchArticles.tsx:22-23 | starts with no articles, loading |
| Pages.ArticleList.Load | asjad/src/components/DynamicResearchArticles.tsx:25-48 | the effect stores the mapped files and always ends with `loading` false |
| Pages.ArticleList.FeaturedView | asjad/src/components/DynamicResearchArticles.tsx:50-66 | shows the first `min(2, n)` articles once loaded |
| Pages.ArticleList.AllView | asjad/src/pages/AllArticles.tsx:52-86 | shows every article, in order, once loaded |
| Pages.FeaturedProjects | asjad/src/components/DynamicProjects.tsx:64 | the home page shows `min(3, n)` projects for `n` loaded files |
| Pages.FeaturedArticles | asjad/src/components/DynamicResearchArticles.tsx:66 | the home page shows `min(2, n)` articles for `n` loaded files |
| Pages.FeaturedAreFirstFiles | asjad/src/components/DynamicProjects.tsx:64 | the home page shows the mapped first `min(3, n)` files as projects and the first `min(2, n)` as articles, in index order |
| Pages.FailedLoadShowsNoCards | asjad/src/components/DynamicProjects.tsx:37-45 | after a failed file fetch the lists are empty |
| Pages.ProjectOutcome | asjad/src/pages/ProjectDetail.tsx:25-73 | the page stays on its loading message exactly when the route slug is missing or empty; a project shown has the route slug |
| Pages.ArticleOutcome | asjad/src/pages/ArticleDetail.tsx:25-73 | the article counterpart: loading for good exactly without a slug; an article shown has the route slug |
| Pages.MissingSlugKeepsLoading | asjad/src/pages/ProjectDetail.tsx:55-58 | with a missing or empty route slug no load runs, and the page shows its loading message for good |
| Pages.NotFoundIff | asjad/src/pages/ArticleDetail.tsx:68-73 | "Not Found" is shown exactly when no loaded file has the route slug |
| Pages.ShownIsFirstMatch | asjad/src/pages/ProjectDetail.tsx:29-46 | the page shown is built from the first loaded file with the route slug |
| Pages.ProjectDetail.constructor | asjad/src/pages/ProjectDetail.tsx:21-23 | starts with no project, loading |
| Pages.ProjectDetail.Mount | asjad/src/pages/ProjectDetail.tsx:25-56 | with a slug: the found project is stored and loading stops, and a lookup that finds nothing leaves `project` as it was; without a slug, nothing changes; from the fresh state the view is `ProjectOutcome` |
| Pages.ProjectDetail.View | asjad/src/pages/ProjectDetail.tsx:58-73 | shows loading while loading, "Not Found" exactly when loaded without a project, otherwise the stored project |
| Pages.ArticleDetail.constructor | asjad/src/pages/ArticleDetail.tsx:21-23 | starts with no article, loading |
| Pages.ArticleDetail.Mount | asjad/src/pages/ArticleDetail.tsx:25-56 | the article counterpart of `ProjectDetail.Mount` |
| Pages.ArticleDetail.View | asjad/src/pages/ArticleDetail.tsx:58-73 | shows loading, then "Not Found" or the stored article |
| Typewriter.Slice | asjad/src/components/HomeSection.tsx:25 | `slice(0, k)` is a prefix of length `min(k, length)` |
| Typewriter.Next | asjad/src/components/HomeSection.tsx:20-38 | the index changes only on the all-deleted rule, and then to the next index modulo the length; a changed `typed` is a prefix of the current string |
| Typewriter.Steps | asjad/src/components/HomeSection.tsx:20-38 | repeated timer callbacks; specified by `StepsConsistent`, `CycleClosedForm` and `Cycle` |
| Typewriter.NextConsistent | asjad/src/components/HomeSection.tsx:21-35 | each transition keeps `index` in `[0, n)` and `typed` a prefix of `strings[index]`, never longer than it |
| Typewriter.StepsConsistent | asjad/src/components/HomeSection.tsx:15-37 | this holds after any number of transitions |
| Typewriter.TypingStep | asjad/src/components/HomeSection.tsx:23-26 | a typing step appends exactly the next character of the string |
| Typewriter.PauseStep | asjad/src/components/HomeSection.tsx:27-28 | once the whole string is shown, the only change is `isDeleting := true` |
| Typewriter.DeletingStep | asjad/src/components/HomeSection.tsx:29-32 | a deleting step removes exactly the last character |
| Typewriter.AdvanceStep | asjad/src/components/HomeSection.tsx:33-37 | with everything deleted, `index` advances by one modulo the length and `isDeleting` becomes false |
| Typewriter.CycleClosedForm | asjad/src/components/HomeSection.tsx:23-37 | from `("", i, false)`, the state after `k` transitions: typing while `k` is at most the length `L` of the string, deleting up to `2L + 1`, then on the next string |
| Typewriter.Cycle | asjad/src/components/HomeSection.tsx:23-37 | from `("", i, false)`, exactly `2L + 2` transitions, `L` the length of `strings[i]`, reach `("", (i+1) % n, false)`, and no smaller positive number does |
| Typewriter.TypewriterLoop.constructor | asjad/src/components/HomeSection.tsx:15-17 | starts at `("", 0, false)`; needs a non-empty list of strings |
| Typewriter.TypewriterLoop.Step | asjad/src/components/HomeSection.tsx:20-38 | one timer callback moves the state to `Next` of the old state and keeps it consistent |

## Left out

- Network I/O: `fetch`, `response.ok`, `response.json()` and `text()` become the `IndexResponse` and `FileResponse` outcomes. The URLs `/<type>/index.json` and `/<type>/<file>` are not modelled. An index whose entries are not strings, which makes `filename.replace` throw and so gives `[]`, is not distinguished from `IndexUnavailable`.
- Concurrency: `Promise.all` runs the fetches concurrently. Only its all-or-nothing outcome is modelled. Resolutions that arrive after a component unmounts are not modelled.
- Pages.ProjectDetail.Mount: models one run of the effect for a fixed route slug. The re-run when the slug changes (the `[slug]` dependency) is not modelled. Pages.ArticleDetail.Mount is the same.
- Pages.ProjectList.Load: the `catch` branch is not modelled separately. `loadMarkdownFiles` catches every error itself, and the mapping cannot throw on string values, so the branch is never taken. Pages.ArticleList.Load is the same.
- The Markdown library: `marked.parse` and `marked.setOptions` (`markdownLoader.ts:115-121`) are foreign code. Only the replacement chain applied to their output is modelled.
- Console diagnostics (`console.log`, `console.error`).
- Timers in `useTypewriterLoop`: `setTimeout`/`clearTimeout`, the `speed`, `pause` and 300 ms delays, and `speed / 2`. Only the transitions are modelled. `strings` is fixed for the life of the hook; a change of the `strings` prop is not modelled.
- Rendering: JSX layout, styling and DOM effects, including the scrolling in `NavBar.tsx` and `Index.tsx`, `window.open` in `CVDownloadDialog.tsx`, and `Footer.tsx`. Views are reduced to what is shown: loading, not found, or the records.
- Hard-coded display data in `ResearchArticles.tsx`, `Index.tsx` and `src/app/page.tsx`: none of it contains logic.
- Typewriter.Next: lengths are counted in code points, while JavaScript's `length` and `slice` count UTF-16 code units. The two agree on text outside the astral planes, which includes the strings the home page passes in.
- Typewriter.Slice: counts code points, not UTF-16 code units, for the same reason.
- Typewriter.Cycle: the cycle length `2L + 2` counts `L` in code points; for text with astral characters JavaScript's count differs.
- Render.UntouchedWithoutBareTags: states that tags with attributes are untouched only for a whole document with no bare styled tag. Closing tags are also covered locally, inside any document, by `ClosingTagUntouched`. No such local form is proved for opening tags with attributes.
- Frontmatter values are always strings. `Record<string, any>` is modelled as `map<string, string>`. The `or-else ''` fallback at `markdownLoader.ts:107` is the identity on strings.
