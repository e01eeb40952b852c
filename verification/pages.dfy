/** The tag index pages of refresh_tags.py:34-41. Each tag gets the page
    text of lines 37-40, written to `./tags/<tag>/index.html`.

    The files on disk are a map from a resolved path to content. A path is
    resolved by splitting it at `/`, dropping empty and `.` components and
    letting `..` cancel the component before it. A tag is only required to
    be free of whitespace, so two tags can name one file (`a` and `a/`), and
    the tag `..` names the site's own `./index.html`. The script writes the
    tags in the iteration order of a Python set. That order is a parameter
    here. Where two tags name one file, the tag written last wins. */
module Pages {
  import opened Text
  import opened FrontMatter
  import opened Tags

  /** The lines of a page (refresh_tags.py:37-40). */
  const MarkerLine: string := "---\n"
  const LayoutLine: string := "layout: tagpage\n"
  const TagField: string := "tag: "

  /** Everything the page holds before the tag, and everything after it. */
  const Header: string := MarkerLine + LayoutLine + TagField
  const Footer: string := "\n" + MarkerLine

  /** The text written for `tag`. */
  function Render(tag: string): string {
    Header + tag + Footer
  }

  /** Reads the tag back out of a page, if `page` has the page shape. */
  function ParsePage(page: string): Option<string> {
    if |page| >= |Header| + |Footer|
       && page[..|Header|] == Header
       && page[|page| - |Footer|..] == Footer
    then Some(page[|Header|..|page| - |Footer|])
    else None
  }

  /** Round trip: the tag can always be read back from its page. */
  lemma ParseRender(tag: string)
    ensures ParsePage(Render(tag)) == Some(tag)
  {
    var page := Header + tag + Footer;
    assert page[..|Header|] == Header;
    assert page[|page| - |Footer|..] == Footer;
    assert page[|Header|..|page| - |Footer|] == tag;
  }

  /** Distinct tags get distinct pages. */
  lemma RenderInjective(a: string, b: string)
    requires a != b
    ensures Render(a) != Render(b)
  {
    ParseRender(a);
    ParseRender(b);
  }

  /** The page as the lines a reader of the file sees. */
  function PageLines(tag: string): seq<string> {
    [MarkerLine, LayoutLine, TagField + tag + "\n", MarkerLine]
  }

  lemma PageLinesJoin(tag: string)
    ensures Concat(PageLines(tag)) == Render(tag)
  {
    var ls := PageLines(tag);
    assert Concat(ls[3..]) == ls[3] by {
      assert ls[3..][1..] == [];
    }
    assert Concat(ls[2..]) == ls[2] + ls[3] by {
      assert ls[2..][1..] == ls[3..];
    }
    assert Concat(ls[1..]) == ls[1] + ls[2] + ls[3] by {
      assert ls[1..][1..] == ls[2..];
    }
  }

  /** A line made of a prefix without `-` followed by something else
      contains `---` only if the rest does. */
  lemma {:induction false} NoDashPrefix(pre: string, s: string)
    requires forall i :: 0 <= i < |pre| ==> pre[i] != '-'
    ensures Contains(pre + s, Delimiter) == Contains(s, Delimiter)
    decreases |pre|
  {
    assert Delimiter == ['-', '-', '-'];
    if |pre| == 0 {
      assert pre + s == s;
    } else {
      assert pre + s == [pre[0]] + (pre[1..] + s);
      ContainsCons(pre[0], pre[1..] + s, '-');
      NoDashPrefix(pre[1..], s);
    }
  }

  /** The opening and closing lines of a page are delimiter lines. */
  lemma MarkerLineIsDelimiter()
    ensures IsDelimiter(MarkerLine)
  {
    assert MarkerLine[..3] == Delimiter;
  }

  /** The layout line of a page is not a delimiter line. */
  lemma LayoutLineIsNotDelimiter()
    ensures !IsDelimiter(LayoutLine)
  {
    NoDashPrefix("layout: tagpage", "\n");
    assert LayoutLine == "layout: tagpage" + "\n";
  }

  /** The tag line of a page is not a delimiter line, provided the tag itself
      holds no `---`. */
  lemma TagLineIsNotDelimiter(tag: string)
    requires !Contains(tag, Delimiter)
    ensures !IsDelimiter(TagField + tag + "\n")
  {
    assert Delimiter == ['-', '-', '-'];
    ContainsSnoc(tag, '\n', '-');
    NoDashPrefix(TagField, tag + "\n");
    assert TagField + tag + "\n" == TagField + (tag + "\n");
  }

  /** A four-line document whose outer lines are delimiters and whose inner
      lines are not has the inner lines as front matter. */
  lemma FourLineFrontMatter(a: string, b: string, c: string, d: string)
    requires IsDelimiter(a) && !IsDelimiter(b) && !IsDelimiter(c) && IsDelimiter(d)
    ensures Scan([a, b, c, d]) == [b, c]
  {
    var ls := [a, b, c, d];
    BlockBetweenDelimiters(ls, 0, 3);
    assert ls[1..3] == [b, c];
  }

  /** Reading a generated page back with the post scanner yields its two
      fields as front matter, provided the tag itself holds no `---`. */
  lemma PageFrontMatter(tag: string)
    requires !Contains(tag, Delimiter)
    ensures Scan(PageLines(tag)) == [LayoutLine, TagField + tag + "\n"]
  {
    MarkerLineIsDelimiter();
    LayoutLineIsNotDelimiter();
    TagLineIsNotDelimiter(tag);
    FourLineFrontMatter(MarkerLine, LayoutLine, TagField + tag + "\n", MarkerLine);
  }

  /** The path the page for `tag` is written to (refresh_tags.py:35-36). */
  function PagePath(tag: string): string {
    "./tags/" + tag + "/index.html"
  }

  predicate NoSlash(s: string) {
    forall i :: 0 <= i < |s| ==> s[i] != '/'
  }

  /** The `/`-separated components of a path, empty ones included, with a
      partly read component `cur` carried in. */
  function Components(s: string, cur: string): seq<string>
    decreases |s|
  {
    if |s| == 0 then [cur]
    else if s[0] == '/' then [cur] + Components(s[1..], [])
    else Components(s[1..], cur + [s[0]])
  }

  /** Characters other than `/` only extend the current component. */
  lemma {:induction false} ComponentsExtend(w: string, rest: string, cur: string)
    requires NoSlash(w)
    ensures Components(w + rest, cur) == Components(rest, cur + w)
    decreases |w|
  {
    if |w| > 0 {
      assert (w + rest)[0] == w[0];
      assert (w + rest)[1..] == w[1..] + rest;
      assert cur + [w[0]] + w[1..] == cur + w;
      ComponentsExtend(w[1..], rest, cur + [w[0]]);
    } else {
      assert w + rest == rest;
      assert cur + w == cur;
    }
  }

  /** A component free of `/`, then `/`, then the rest of the path. */
  lemma ComponentThenSlash(w: string, rest: string)
    requires NoSlash(w)
    ensures Components(w + "/" + rest, []) == [w] + Components(rest, [])
  {
    ComponentsExtend(w, "/" + rest, []);
    assert w + "/" + rest == w + ("/" + rest);
    assert [] + w == w;
    assert ("/" + rest)[1..] == rest;
  }

  /** A path without `/` is a single component. */
  lemma LastComponent(w: string)
    requires NoSlash(w)
    ensures Components(w, []) == [w]
  {
    ComponentsExtend(w, [], []);
    assert w + [] == w;
    assert [] + w == w;
  }

  /** Components joined back together with `/` between them. */
  function JoinSlash(parts: seq<string>): string
    requires |parts| > 0
  {
    if |parts| == 1 then parts[0] else parts[0] + "/" + JoinSlash(parts[1..])
  }

  /** Splitting at `/` undoes joining with `/` when no component holds a
      `/` of its own. */
  lemma {:induction false} ComponentsOfJoin(parts: seq<string>)
    requires |parts| > 0
    requires forall k :: 0 <= k < |parts| ==> NoSlash(parts[k])
    ensures Components(JoinSlash(parts), []) == parts
  {
    if |parts| == 1 {
      LastComponent(parts[0]);
    } else {
      ComponentsOfJoin(parts[1..]);
      ComponentThenSlash(parts[0], JoinSlash(parts[1..]));
      assert parts == [parts[0]] + parts[1..];
    }
  }

  /** Joining two lists of components joins their joins. */
  lemma {:induction false} JoinSlashAppend(xs: seq<string>, ys: seq<string>)
    requires |xs| > 0 && |ys| > 0
    ensures JoinSlash(xs + ys) == JoinSlash(xs) + "/" + JoinSlash(ys)
    decreases |xs|
  {
    if |xs| == 1 {
      assert (xs + ys)[1..] == ys;
    } else {
      assert (xs + ys)[1..] == xs[1..] + ys;
      JoinSlashAppend(xs[1..], ys);
    }
  }

  /** Two components joined. */
  lemma JoinTwo(a: string, b: string)
    ensures JoinSlash([a, b]) == a + "/" + b
  {
    assert [a, b][1..] == [b];
  }

  /** The page path as `.`, `tags`, the tag and `index.html` joined by `/`. */
  lemma PagePathRegroup(t: string)
    ensures PagePath(t) == "." + "/" + "tags" + "/" + (t + "/" + "index.html")
  {
  }

  /** The page path of a tag that is itself the join of the components
      `tp`, as one join. */
  lemma PagePathIsJoin(tp: seq<string>)
    requires |tp| > 0
    ensures PagePath(JoinSlash(tp)) == JoinSlash([".", "tags"] + tp + ["index.html"])
  {
    var pre: seq<string> := [".", "tags"];
    var post: seq<string> := ["index.html"];
    var t := JoinSlash(tp);
    assert JoinSlash(post) == "index.html";
    JoinSlashAppend(tp, post);
    assert JoinSlash(tp + post) == t + "/" + "index.html";
    JoinTwo(".", "tags");
    JoinSlashAppend(pre, tp + post);
    assert JoinSlash(pre + (tp + post)) == JoinSlash(pre) + "/" + (t + "/" + "index.html");
    assert pre + (tp + post) == pre + tp + post;
    PagePathRegroup(t);
  }

  /** The fixed components of a page path hold no `/`. */
  lemma PagePathPartsNoSlash(tp: seq<string>)
    requires forall k :: 0 <= k < |tp| ==> NoSlash(tp[k])
    ensures forall k :: 0 <= k < |[".", "tags"] + tp + ["index.html"]| ==>
              NoSlash(([".", "tags"] + tp + ["index.html"])[k])
  {
    var parts := [".", "tags"] + tp + ["index.html"];
    forall k | 0 <= k < |parts|
      ensures NoSlash(parts[k])
    {
      if k >= 2 + |tp| {
        assert parts[k] == "index.html";
      } else if k >= 2 {
        assert parts[k] == tp[k - 2];
      } else if k == 0 {
        assert parts[k] == ".";
      } else {
        assert parts[k] == "tags";
      }
    }
  }

  /** The components of the page path of a tag that is itself the join of
      the components `tp`. */
  lemma PagePathComponents(tp: seq<string>)
    requires |tp| > 0
    requires forall k :: 0 <= k < |tp| ==> NoSlash(tp[k])
    ensures Components(PagePath(JoinSlash(tp)), []) == [".", "tags"] + tp + ["index.html"]
  {
    PagePathIsJoin(tp);
    PagePathPartsNoSlash(tp);
    ComponentsOfJoin([".", "tags"] + tp + ["index.html"]);
  }

  /** Resolves the components of a relative path: empty and `.` components
      are dropped, `..` cancels the component before it. */
  function Normalize(parts: seq<string>, resolved: seq<string>): seq<string>
    decreases |parts|
  {
    if |parts| == 0 then resolved
    else if parts[0] == "" || parts[0] == "." then Normalize(parts[1..], resolved)
    else if parts[0] == ".." && |resolved| > 0 && resolved[|resolved| - 1] != ".." then
      Normalize(parts[1..], resolved[..|resolved| - 1])
    else Normalize(parts[1..], resolved + [parts[0]])
  }

  /** A component that names a directory entry: not empty, `.` or `..`. */
  predicate Ordinary(c: string) {
    c != "" && c != "." && c != ".."
  }

  /** Ordinary components are kept as they are. */
  lemma {:induction false} NormalizeOrdinary(parts: seq<string>, resolved: seq<string>)
    requires forall k :: 0 <= k < |parts| ==> Ordinary(parts[k])
    ensures Normalize(parts, resolved) == resolved + parts
    decreases |parts|
  {
    if |parts| > 0 {
      NormalizeOrdinary(parts[1..], resolved + [parts[0]]);
      assert resolved + [parts[0]] + parts[1..] == resolved + parts;
    } else {
      assert resolved + parts == resolved;
    }
  }

  /** The file the page for `tag` lands in. */
  function FileOf(tag: string): seq<string> {
    Normalize(Components(PagePath(tag), []), [])
  }

  /** A tag that is a single ordinary path component. */
  predicate PlainTag(t: string) {
    Ordinary(t) && NoSlash(t)
  }

  /** The page of a plain tag lands in `tags/<tag>/index.html`. */
  lemma PlainTagFile(t: string)
    requires PlainTag(t)
    ensures FileOf(t) == ["tags", t, "index.html"]
  {
    PagePathComponents([t]);
    var parts := [".", "tags"] + [t] + ["index.html"];
    var rest := ["tags", t, "index.html"];
    assert parts[1..] == rest;
    NormalizeOrdinary(rest, []);
    assert [] + rest == rest;
  }

  /** Distinct plain tags land in distinct files. */
  lemma PlainFileInjective(a: string, b: string)
    requires PlainTag(a) && PlainTag(b) && FileOf(a) == FileOf(b)
    ensures a == b
  {
    PlainTagFile(a);
    PlainTagFile(b);
    assert FileOf(a)[1] == a;
  }

  /** The tag `..` lands in the site's own `./index.html`. */
  lemma DotDotTagFile()
    ensures FileOf("..") == ["index.html"]
  {
    PagePathComponents([".."]);
    var parts := [".", "tags"] + [".."] + ["index.html"];
    assert parts[1..] == ["tags", "..", "index.html"];
    assert parts[1..][1..] == ["..", "index.html"];
    assert parts[1..][1..][1..] == ["index.html"];
    assert ["tags"][..0] == [];
    assert Normalize(["index.html"], []) == ["index.html"] by {
      NormalizeOrdinary(["index.html"], []);
    }
  }

  /** The distinct tags `a` and `a/` land in the same file. */
  lemma TrailingSlashTagAliases()
    ensures "a" != "a/" && FileOf("a/") == FileOf("a")
  {
    PlainTagFile("a");
    var tp := ["a", ""];
    assert tp[1..] == [""];
    assert JoinSlash(tp) == "a/";
    PagePathComponents(tp);
    var parts := [".", "tags"] + tp + ["index.html"];
    assert parts[1..] == ["tags", "a", "", "index.html"];
    assert parts[1..][1..] == ["a", "", "index.html"];
    assert parts[1..][1..][1..] == ["", "index.html"];
    assert parts[1..][1..][1..][1..] == ["index.html"];
    assert Normalize(["index.html"], ["tags", "a"]) == ["tags", "a", "index.html"] by {
      NormalizeOrdinary(["index.html"], ["tags", "a"]);
    }
  }

  /** The files on disk, by resolved path. */
  type Files = map<seq<string>, string>

  /** The position in `order` of the last tag whose page lands in `file`. */
  function LastWriter(order: seq<string>, file: seq<string>): (r: Option<nat>)
    ensures r.Some? ==> r.value < |order| && FileOf(order[r.value]) == file
    ensures r.Some? ==> forall j :: r.value < j < |order| ==> FileOf(order[j]) != file
    ensures r.None? <==> forall j :: 0 <= j < |order| ==> FileOf(order[j]) != file
  {
    if |order| == 0 then None
    else if FileOf(order[|order| - 1]) == file then Some(|order| - 1)
    else LastWriter(order[..|order| - 1], file)
  }

  /** The write loop of refresh_tags.py:34-41, the tags taken in `order`:
      each write replaces what the file held. A file holds the page of the
      last tag written to it, and files no tag reaches are unchanged. */
  function WritePages(fs: Files, order: seq<string>): (out: Files)
    ensures forall f :: f in out <==> f in fs || LastWriter(order, f).Some?
    ensures forall f :: f in out && LastWriter(order, f).Some? ==>
              out[f] == Render(order[LastWriter(order, f).value])
    ensures forall f :: f in fs && LastWriter(order, f).None? ==> out[f] == fs[f]
    decreases |order|
  {
    if |order| == 0 then fs
    else
      var last := order[|order| - 1];
      var init := order[..|order| - 1];
      assert forall f :: FileOf(last) != f ==> LastWriter(order, f) == LastWriter(init, f);
      WritePages(fs, init)[FileOf(last) := Render(last)]
  }

  /** Writing the pages twice in the same order leaves the same files as
      writing them once. */
  lemma WritePagesIdempotent(fs: Files, order: seq<string>)
    ensures WritePages(WritePages(fs, order), order) == WritePages(fs, order)
  {
    var once := WritePages(fs, order);
    var twice := WritePages(once, order);
    assert twice.Keys == once.Keys;
    forall f | f in twice
      ensures twice[f] == once[f]
    {
    }
  }

  /** No two of `tags` land in the same file. */
  predicate SeparateFiles(tags: set<string>) {
    forall u, v :: u in tags && v in tags && FileOf(u) == FileOf(v) ==> u == v
  }

  /** Plain tags never share a file. */
  lemma PlainTagsSeparate(tags: set<string>)
    requires forall u :: u in tags ==> PlainTag(u)
    ensures SeparateFiles(tags)
  {
    forall u, v | u in tags && v in tags && FileOf(u) == FileOf(v)
      ensures u == v
    {
      PlainFileInjective(u, v);
    }
  }

  /** When no two tags share a file, each tag's file holds its own page. */
  lemma SeparatePagesWritten(fs: Files, order: seq<string>, t: string)
    requires SeparateFiles(ElemSet(order))
    requires t in order
    ensures FileOf(t) in WritePages(fs, order)
    ensures WritePages(fs, order)[FileOf(t)] == Render(t)
  {
    var i :| 0 <= i < |order| && order[i] == t;
    var w := LastWriter(order, FileOf(t));
    assert FileOf(order[i]) == FileOf(t);
    assert order[w.value] in ElemSet(order);
  }

  /** Two orders holding the same tags reach the same files. */
  lemma SameFilesWritten(o1: seq<string>, o2: seq<string>, f: seq<string>)
    requires forall u :: u in o1 <==> u in o2
    ensures LastWriter(o1, f).Some? <==> LastWriter(o2, f).Some?
  {
    if LastWriter(o1, f).Some? {
      var u := o1[LastWriter(o1, f).value];
      assert u in o2;
      var k :| 0 <= k < |o2| && o2[k] == u;
    }
    if LastWriter(o2, f).Some? {
      var u := o2[LastWriter(o2, f).value];
      assert u in o1;
      var k :| 0 <= k < |o1| && o1[k] == u;
    }
  }

  /** When no two tags share a file, the order of the writes does not
      matter. */
  lemma SeparateWritesOrderIndependent(fs: Files, o1: seq<string>, o2: seq<string>)
    requires SeparateFiles(ElemSet(o1))
    requires forall u :: u in o1 <==> u in o2
    ensures WritePages(fs, o1) == WritePages(fs, o2)
  {
    var w1 := WritePages(fs, o1);
    var w2 := WritePages(fs, o2);
    assert ElemSet(o2) == ElemSet(o1);
    forall f
      ensures f in w1 <==> f in w2
    {
      SameFilesWritten(o1, o2, f);
    }
    forall f | f in w1
      ensures w1[f] == w2[f]
    {
      SameFilesWritten(o1, o2, f);
      if LastWriter(o1, f).Some? {
        var u := o1[LastWriter(o1, f).value];
        SeparatePagesWritten(fs, o1, u);
        SeparatePagesWritten(fs, o2, u);
      }
    }
  }

  /** Conversely, two distinct tags sharing a file leave different files
      when written in the two orders: the later one's page wins. */
  lemma SharedFileMakesOrderMatter(fs: Files, u: string, v: string)
    requires u != v && FileOf(u) == FileOf(v)
    ensures WritePages(fs, [u, v]) != WritePages(fs, [v, u])
  {
    var f := FileOf(u);
    assert [u, v][1] == v && [v, u][1] == u;
    assert LastWriter([u, v], f) == Some(1);
    assert LastWriter([v, u], f) == Some(1);
    RenderInjective(u, v);
  }

  /** With tags `a` and `a/`, which page survives depends on the order, so
      two runs of the script can leave different files. */
  lemma AliasingMakesOrderMatter(fs: Files)
    ensures WritePages(fs, ["a", "a/"]) != WritePages(fs, ["a/", "a"])
  {
    TrailingSlashTagAliases();
    SharedFileMakesOrderMatter(fs, "a", "a/");
  }

  /** The tag `..` overwrites the site's own `./index.html`. */
  lemma DotDotOverwritesSiteIndex(fs: Files)
    ensures ["index.html"] in WritePages(fs, [".."])
    ensures WritePages(fs, [".."])[["index.html"]] == Render("..")
  {
    DotDotTagFile();
    assert LastWriter([".."], ["index.html"]) == Some(0);
  }

  /** `order` is an iteration order of the set `tags`: every tag once. */
  predicate Enumerates(order: seq<string>, tags: set<string>) {
    && (forall t :: t in order ==> t in tags)
    && (forall t :: t in tags ==> t in order)
    && (forall i, j :: 0 <= i < j < |order| ==> order[i] != order[j])
  }

  /** The whole run: collect the site's tags from the posts, then write one
      page per tag in the set's iteration order. Every tag of every post has
      a file, files already on disk stay, and those no tag reaches, stale
      tag pages included, keep their content. */
  function Refresh(fs: Files, posts: seq<seq<string>>, order: seq<string>): (out: Files)
    requires Enumerates(order, SiteTags(posts))
    ensures fs.Keys <= out.Keys
    ensures forall p :: 0 <= p < |posts| ==>
              forall t :: t in PostTags(posts[p]) ==> FileOf(t) in out
    ensures forall f :: f in fs && (forall t :: t in SiteTags(posts) ==> FileOf(t) != f) ==>
              out[f] == fs[f]
  {
    forall f | f in fs && (forall t :: t in SiteTags(posts) ==> FileOf(t) != f)
      ensures LastWriter(order, f).None?
    {
      forall j | 0 <= j < |order|
        ensures FileOf(order[j]) != f
      {
        assert order[j] in SiteTags(posts);
      }
    }
    forall p, t | 0 <= p < |posts| && t in PostTags(posts[p])
      ensures FileOf(t) in WritePages(fs, order)
    {
      SiteTagsIsUnion(posts, t);
      var k :| 0 <= k < |order| && order[k] == t;
      assert FileOf(order[k]) == FileOf(t);
    }
    WritePages(fs, order)
  }

  /** When no two site tags share a file, each tag's file holds exactly its
      page; for a plain tag that file is `tags/<tag>/index.html`. */
  lemma RefreshWritesEveryPage(fs: Files, posts: seq<seq<string>>, order: seq<string>, p: nat, t: string)
    requires Enumerates(order, SiteTags(posts))
    requires SeparateFiles(SiteTags(posts))
    requires p < |posts| && t in PostTags(posts[p])
    ensures FileOf(t) in Refresh(fs, posts, order)
    ensures Refresh(fs, posts, order)[FileOf(t)] == Render(t)
    ensures PlainTag(t) ==> FileOf(t) == ["tags", t, "index.html"]
  {
    SiteTagsIsUnion(posts, t);
    assert ElemSet(order) == SiteTags(posts);
    SeparatePagesWritten(fs, order, t);
    if PlainTag(t) {
      PlainTagFile(t);
    }
  }

  /** When no two site tags share a file, running the script again on the
      same posts, in whatever set order, leaves the files as the first run
      left them. */
  lemma RefreshIdempotent(fs: Files, posts: seq<seq<string>>, o1: seq<string>, o2: seq<string>)
    requires Enumerates(o1, SiteTags(posts)) && Enumerates(o2, SiteTags(posts))
    requires SeparateFiles(SiteTags(posts))
    ensures Refresh(Refresh(fs, posts, o1), posts, o2) == Refresh(fs, posts, o1)
  {
    var once := WritePages(fs, o1);
    assert ElemSet(o1) == SiteTags(posts);
    SeparateWritesOrderIndependent(once, o1, o2);
    WritePagesIdempotent(fs, o1);
  }
}
