# Tag refresh for a static blog, modelled in Dafny

`refresh_tags.py` scans the blog's posts. For each post it reads the tags
declared in the post's front matter, collects the distinct tags of the whole
site, and writes one index page per tag for the static-site generator. This
project models the text processing inside that script and the page writes,
and proves their behaviour:

- `text.dfy` (module `Text`): Python's substring test `pat in s`, the
  argument-less `str.strip()` and `str.split()`, and a first-match search
  over lines.
- `frontmatter.dfy` (module `FrontMatter`): the two-state front-matter
  scanner. `Scan` is the recursive model and `CollectFrontMatter` is the loop
  as written. Both are proved equal to a slice-based reference description.
- `tags.dfy` (module `Tags`): tag extraction from the first `tags:` line,
  and the site-wide fold of every post's tags into one set.
- `pages.dfy` (module `Pages`): the exact index-page text, the file each page
  lands in once its path is resolved, and the writes as updates of a map from
  resolved paths to contents.

A post file is given as its sequence of lines. Each line may keep its
trailing line feed, as Python's file iteration yields it. The set of posts
is given as a sequence of such files.

A post whose only `---` line opens the front matter has no closing line. The
scanner then stays inside and collects every later line up to end of file
(refresh_tags.py:18-23). `FrontMatter.SingleDelimiterRunsToEnd` states this.

A tag is any run of non-whitespace characters, so it may contain `/` or be
`.` or `..`. The page path `./tags/<tag>/index.html` is resolved the way a
POSIX file system resolves it when `tags` is a real directory: empty and `.`
components are dropped, and `..` cancels the component before it. Two tags
can then name one file, such as `a` and `a/`, and the tag `..` names the
site's own `./index.html`. The script writes the tags in the iteration order
of a Python set, which is unspecified. That order is a parameter, and where
two tags share a file the one written last wins. The result is independent
of the order exactly when no two distinct tags share a file. A tag that is a
single ordinary path component is called plain here, and plain tags never
share a file.

## Model

| member | source | states |
|---|---|---|
| Text.ContainsIffOccurs | refresh_tags.py:18-28 | `Contains`, the model of `pat in line`, holds exactly when `pat` occurs as a contiguous slice at some position of the line |
| Text.Words | refresh_tags.py:29 | `split()` yields only non-empty, whitespace-free tokens, and together they hold exactly the input's non-whitespace characters, in order |
| Text.WordsOfLayout | refresh_tags.py:29 | words laid out with any whitespace before, between and after them split back into exactly those words, which fixes the token boundaries |
| Text.WordsOfStrip | refresh_tags.py:29 | `line.strip().split()` equals `line.split()` for every line |
| Text.LeadingSpace | refresh_tags.py:29 | the leading whitespace that `strip()` removes is the maximal run of whitespace at the start |
| Text.TrimEnd | refresh_tags.py:29 | removing trailing whitespace keeps a prefix, removes only whitespace, and leaves no trailing whitespace |
| Text.Strip | refresh_tags.py:29 | the stripped line is the slice of the input after its maximal leading whitespace, everything after that slice is whitespace, and the result neither starts nor ends with whitespace |
| Text.FindFirst | refresh_tags.py:18-28 | returns the first line at or after the start that contains the pattern, or nothing exactly when no such line exists |
| FrontMatter.InsideScanIsBlock | refresh_tags.py:20-23 | once inside, the scanner `ScanFrom` collects exactly the lines up to the next `---` line, or up to end of input when there is none |
| FrontMatter.OutsideScanIsBlock | refresh_tags.py:17-19 | while outside, `ScanFrom` skips lines until the first `---` line and then collects the block after it; with no `---` line it collects nothing |
| FrontMatter.Scan | refresh_tags.py:14-23 | the front matter is the block after the first `---` line, and none of its lines contains `---` |
| FrontMatter.NoDelimiterNoFrontMatter | refresh_tags.py:18-23 | a post with no line containing `---` has empty front matter |
| FrontMatter.SingleDelimiterRunsToEnd | refresh_tags.py:18-23 | with exactly one `---` line, the front matter is every line after it through end of input |
| FrontMatter.BlockBetweenDelimiters | refresh_tags.py:18-23 | with the first two `---` lines at `i` and `j`, the front matter is exactly the lines strictly between them |
| FrontMatter.FrontMatterIsSlice | refresh_tags.py:17-23 | the front matter is one contiguous, order-preserving slice of the input, opened by the first `---` line and closed by the second or by end of input; the slice starts at the first line exactly when no line contains `---` |
| FrontMatter.CollectFrontMatter | refresh_tags.py:14-23 | the loop with its `inside` flag and `break` collects the slice-based front matter |
| Tags.LineTags | refresh_tags.py:29 | the tags of a `tags:` line are its whitespace-split tokens minus the first, and each is non-empty and whitespace-free |
| Tags.TagsFromIsFirstMatch | refresh_tags.py:27-31 | the search `TagsFrom` returns the tags of the first line containing `tags:`, or nothing when there is none |
| Tags.ExtractTags | refresh_tags.py:26-31 | a post's tags come from its first `tags:` line only, or are empty when none exists, and every tag is a whitespace-free token |
| Tags.NoTagsLineNoTags | refresh_tags.py:26-31 | a front matter without a `tags:` line contributes no tags |
| Tags.FirstTagsLineWins | refresh_tags.py:27-31 | the first `tags:` line alone decides the tags |
| Tags.LaterLinesIgnored | refresh_tags.py:27-31 | lines after a `tags:` line, later `tags:` lines included, never change the tags |
| Tags.PostTags | refresh_tags.py:14-31 | a post's tags are whitespace-free tokens, and a post without any `---` line has none |
| Tags.Accumulate | refresh_tags.py:10-32 | folding posts into the tag set never drops a tag already collected |
| Tags.AccumulateIsUnion | refresh_tags.py:10-32 | a tag is in the folded set exactly when it was in the starting set or some post declares it |
| Tags.SiteTagsIsUnion | refresh_tags.py:10-32 | `SiteTags`, the fold from the empty set, holds a tag exactly when some post declares it, so duplicates collapse |
| Tags.SiteTagsAreWords | refresh_tags.py:29-32 | every site tag is non-empty and contains no whitespace |
| Tags.SiteTagsAppend | refresh_tags.py:32 | processing one more post adds exactly that post's tags and removes nothing |
| Tags.SiteTagsOrderIrrelevant | refresh_tags.py:9-32 | any two post lists holding the same posts, in any order and with any repetition, give the same tag set |
| Pages.ParseRender | refresh_tags.py:37-40 | the tag can be read back from the page `Render` produces: the page is the fixed header, then the tag, then the fixed footer |
| Pages.RenderInjective | refresh_tags.py:37-40 | distinct tags get distinct page texts |
| Pages.PageLinesJoin | refresh_tags.py:37-40 | the page is the four lines `---`, `layout: tagpage`, `tag: <tag>`, `---`, each ending in a line feed |
| Pages.PageFrontMatter | refresh_tags.py:37-40 | read back with the post scanner, a page whose tag holds no `---` has exactly its layout and tag lines as front matter |
| Pages.ComponentsOfJoin | refresh_tags.py:35-36 | splitting a path at `/` gives back the components it was joined from |
| Pages.PagePathComponents | refresh_tags.py:35-36 | the path `PagePath` builds for a tag made of components `tp` splits into `.`, `tags`, those components and `index.html` |
| Pages.NormalizeOrdinary | refresh_tags.py:35-36 | path resolution keeps components other than empty, `.` and `..` as they are |
| Pages.PlainTagFile | refresh_tags.py:35-36 | the page of a plain tag lands in `tags/<tag>/index.html` |
| Pages.PlainFileInjective | refresh_tags.py:35-36 | distinct plain tags land in distinct files |
| Pages.DotDotTagFile | refresh_tags.py:35-36 | the tag `..` lands in the site's `./index.html` |
| Pages.TrailingSlashTagAliases | refresh_tags.py:35-36 | the distinct tags `a` and `a/` land in the same file |
| Pages.LastWriter | refresh_tags.py:34-36 | finds the last tag in the write order whose page lands in a given file, or reports that none does |
| Pages.WritePages | refresh_tags.py:34-41 | after the writes, a file exists exactly when it existed before or some tag lands in it; it holds the page of the last tag written to it, and files no tag reaches keep their content |
| Pages.WritePagesIdempotent | refresh_tags.py:34-41 | writing the pages twice in the same order leaves the same files as writing them once, aliasing tags included |
| Pages.PlainTagsSeparate | refresh_tags.py:35-36 | no two distinct plain tags share a file |
| Pages.SeparatePagesWritten | refresh_tags.py:34-41 | when no two tags share a file, every tag's file holds that tag's page |
| Pages.SeparateWritesOrderIndependent | refresh_tags.py:34-41 | when no two tags share a file, any two orders of the same tags leave the same files |
| Pages.SharedFileMakesOrderMatter | refresh_tags.py:34-41 | two distinct tags sharing a file leave different files in the two write orders, so sharing is exactly what makes the order matter |
| Pages.AliasingMakesOrderMatter | refresh_tags.py:34-41 | with the tags `a` and `a/`, the two write orders leave different files |
| Pages.DotDotOverwritesSiteIndex | refresh_tags.py:34-41 | writing the tag `..` replaces the site's `./index.html` with a tag page |
| Pages.Refresh | refresh_tags.py:9-41 | after a run, every tag of every post has a file, every file present before is still present, and files no site tag reaches keep their content |
| Pages.RefreshWritesEveryPage | refresh_tags.py:9-41 | when no two site tags share a file, every tag of every post has its file holding exactly its page, and for a plain tag that file is `tags/<tag>/index.html` |
| Pages.RefreshIdempotent | refresh_tags.py:9-41 | when no two site tags share a file, a second run on unchanged posts, in any set order, leaves the files as the first run left them |

## Left out

- Post discovery with `glob` (refresh_tags.py:9) is filesystem I/O. The posts are a parameter, a sequence of line sequences.
- Opening, reading and closing post files (refresh_tags.py:16-17) is I/O. Each file is given as its sequence of lines.
- All `print` output (refresh_tags.py:13, 30, 43) is console tracing. It is not modelled.
- Python's whitespace for `strip()` and `split()` includes non-ASCII characters. The model covers the ASCII whitespace only: space, tab, line feed, carriage return, vertical tab, form feed and the separators 0x1C to 0x1F.
- Python's set iteration order (refresh_tags.py:34) is unspecified and, for strings, varies between runs with hash randomisation. The order is a parameter of `Pages.Refresh`, constrained only to list every site tag once.
- `os.makedirs` (refresh_tags.py:35) creates directories. The model has files only, keyed by resolved path, so it does not model a run that aborts because one tag's file lies on the directory path of another's. The tags `a` and `a/index.html` abort the script in both orders: written in that order, `os.makedirs` finds a file where it needs a directory (refresh_tags.py:35); in the other order, `open` finds a directory where it needs a file (refresh_tags.py:36). The model keeps both files.
- Pages.WritePages: path resolution covers `/`, `.` and `..` only. Symbolic links, case-insensitive file systems and the operating system's limits on names are not modelled.
- Pages.WritePagesIdempotent: holds for one fixed write order. Two runs in different orders give the same files when no two tags share a file (`Pages.SeparateWritesOrderIndependent`), and `Pages.SharedFileMakesOrderMatter` shows they differ otherwise.
- Pages.Refresh: does not state which page an aliased file holds beyond "the last tag written to it", since that depends on the set order. Its result describes runs that do not abort; where one tag's file lies on the directory path of another's, the script aborts and the model still reports both files.
- Pages.RefreshIdempotent: requires that no two site tags share a file. With tags that share one, a second run in another set order can leave a different page in it.
- The file write (refresh_tags.py:36-41) is modelled as a map update. Failures such as denied permission or a full disk abort the script and are not modelled.
