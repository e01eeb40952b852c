/** Tag extraction for one post and the site-wide tag set of
    refresh_tags.py. A post's tags are read from the first front-matter
    line containing `tags:`; the site's tags are the union of every post's
    tags, folded post by post into one set. */
module Tags {
  import opened Text
  import opened FrontMatter

  const TagsKey: string := "tags:"

  /** Python's `ws[1:]`: everything after the first element, empty when
      there is none. */
  function DropFirst(ws: seq<string>): seq<string> {
    if |ws| == 0 then [] else ws[1..]
  }

  /** The tags written on a `tags:` line: `line.strip().split()[1:]`, i.e.
      every whitespace-separated token after the key token. Stripping first
      makes no difference, and every tag is a non-empty run of
      non-whitespace characters. */
  function LineTags(line: string): (tags: seq<string>)
    ensures tags == DropFirst(Words(line))
    ensures AllWords(tags)
  {
    WordsOfStrip(line);
    DropFirst(Words(Strip(line)))
  }

  /** The first-match search of refresh_tags.py:26-31 from front-matter line
      `k` on. */
  function TagsFrom(fm: seq<string>, k: nat): seq<string>
    requires k <= |fm|
    decreases |fm| - k
  {
    if k == |fm| then []
    else if Contains(fm[k], TagsKey) then LineTags(fm[k])
    else TagsFrom(fm, k + 1)
  }

  /** The search from `k` returns the tags of the first `tags:` line at or
      after `k`, or nothing when there is none. */
  lemma {:induction false} TagsFromIsFirstMatch(fm: seq<string>, k: nat)
    requires k <= |fm|
    ensures TagsFrom(fm, k) == match FindFirst(fm, TagsKey, k)
                               case None => []
                               case Some(i) => LineTags(fm[i])
    decreases |fm| - k
  {
    if k < |fm| && !Contains(fm[k], TagsKey) {
      TagsFromIsFirstMatch(fm, k + 1);
    }
  }

  /** The tags of one post, from its front-matter lines. */
  function ExtractTags(fm: seq<string>): (tags: seq<string>)
    ensures tags == match FindFirst(fm, TagsKey, 0)
                    case None => []
                    case Some(i) => LineTags(fm[i])
    ensures AllWords(tags)
  {
    TagsFromIsFirstMatch(fm, 0);
    TagsFrom(fm, 0)
  }

  /** A front matter without a `tags:` line contributes no tags. */
  lemma NoTagsLineNoTags(fm: seq<string>)
    requires forall k :: 0 <= k < |fm| ==> !Contains(fm[k], TagsKey)
    ensures ExtractTags(fm) == []
  {
    assert FindFirst(fm, TagsKey, 0).None?;
  }

  /** The first `tags:` line decides the tags. */
  lemma FirstTagsLineWins(fm: seq<string>, i: nat)
    requires i < |fm| && Contains(fm[i], TagsKey)
    requires forall k :: 0 <= k < i ==> !Contains(fm[k], TagsKey)
    ensures ExtractTags(fm) == DropFirst(Words(fm[i]))
  {
    assert FindFirst(fm, TagsKey, 0) == Some(i);
  }

  /** Once a `tags:` line has been seen, later lines, `tags:` lines
      included, have no effect. */
  lemma LaterLinesIgnored(fm: seq<string>, more: seq<string>, i: nat)
    requires i < |fm| && Contains(fm[i], TagsKey)
    ensures ExtractTags(fm + more) == ExtractTags(fm)
  {
    var f := FindFirst(fm, TagsKey, 0).value;
    assert forall k :: 0 <= k < |fm| ==> (fm + more)[k] == fm[k];
    assert FindFirst(fm + more, TagsKey, 0) == Some(f);
  }

  /** The tags a post file contributes: front matter first, then tags. */
  function PostTags(lines: seq<string>): (tags: seq<string>)
    ensures AllWords(tags)
    ensures (forall k :: 0 <= k < |lines| ==> !IsDelimiter(lines[k])) ==> tags == []
  {
    ExtractTags(Scan(lines))
  }

  /** Python's `set(tags)`. */
  function ElemSet(tags: seq<string>): set<string> {
    set t | t in tags
  }

  /** The fold of refresh_tags.py:10-32: starting from `acc`, each post's tags
      are unioned into the set in turn. */
  function Accumulate(acc: set<string>, posts: seq<seq<string>>): (r: set<string>)
    ensures acc <= r
    decreases |posts|
  {
    if |posts| == 0 then acc
    else Accumulate(acc + ElemSet(PostTags(posts[0])), posts[1..])
  }

  /** The set of every tag of the site, starting from the empty set. */
  function SiteTags(posts: seq<seq<string>>): set<string> {
    Accumulate({}, posts)
  }

  /** Tag `t` was declared by some post of `posts`. */
  predicate DeclaredBySome(posts: seq<seq<string>>, t: string) {
    exists p :: 0 <= p < |posts| && t in PostTags(posts[p])
  }

  /** The fold yields what it started from plus every post's tags, nothing
      more. */
  lemma {:induction false} AccumulateIsUnion(acc: set<string>, posts: seq<seq<string>>, t: string)
    ensures t in Accumulate(acc, posts) <==> t in acc || DeclaredBySome(posts, t)
    decreases |posts|
  {
    if |posts| > 0 {
      AccumulateIsUnion(acc + ElemSet(PostTags(posts[0])), posts[1..], t);
      if DeclaredBySome(posts, t) {
        var p :| 0 <= p < |posts| && t in PostTags(posts[p]);
        if p > 0 {
          assert posts[1..][p - 1] == posts[p];
          assert DeclaredBySome(posts[1..], t);
        }
      }
      if DeclaredBySome(posts[1..], t) {
        var p :| 0 <= p < |posts[1..]| && t in PostTags(posts[1..][p]);
        assert posts[p + 1] == posts[1..][p];
      }
    }
  }

  /** The site's tag set is exactly the union of the posts' tag lists, so a
      tag declared by several posts appears once. */
  lemma SiteTagsIsUnion(posts: seq<seq<string>>, t: string)
    ensures t in SiteTags(posts) <==> DeclaredBySome(posts, t)
  {
    AccumulateIsUnion({}, posts, t);
  }

  /** Every site tag is a non-empty token without whitespace. */
  lemma SiteTagsAreWords(posts: seq<seq<string>>, t: string)
    requires t in SiteTags(posts)
    ensures IsWord(t)
  {
    SiteTagsIsUnion(posts, t);
    var p :| 0 <= p < |posts| && t in PostTags(posts[p]);
    var k :| 0 <= k < |PostTags(posts[p])| && PostTags(posts[p])[k] == t;
  }

  /** Processing one more post adds that post's tags and removes nothing. */
  lemma SiteTagsAppend(posts: seq<seq<string>>, post: seq<string>)
    ensures SiteTags(posts + [post]) == SiteTags(posts) + ElemSet(PostTags(post))
  {
    var all := posts + [post];
    forall t | true
      ensures t in SiteTags(all) <==> t in SiteTags(posts) + ElemSet(PostTags(post))
    {
      SiteTagsIsUnion(all, t);
      SiteTagsIsUnion(posts, t);
      if DeclaredBySome(all, t) {
        var p :| 0 <= p < |all| && t in PostTags(all[p]);
        if p < |posts| {
          assert all[p] == posts[p];
        }
      }
      if DeclaredBySome(posts, t) {
        var p :| 0 <= p < |posts| && t in PostTags(posts[p]);
        assert all[p] == posts[p];
      }
      if t in PostTags(post) {
        assert all[|posts|] == post;
      }
    }
  }

  /** Only which posts there are matters: the order `glob` returns them in,
      and any repetition, leave the tag set unchanged. */
  lemma SiteTagsOrderIrrelevant(a: seq<seq<string>>, b: seq<seq<string>>)
    requires forall p :: p in a <==> p in b
    ensures SiteTags(a) == SiteTags(b)
  {
    forall t | true
      ensures t in SiteTags(a) <==> t in SiteTags(b)
    {
      SiteTagsIsUnion(a, t);
      SiteTagsIsUnion(b, t);
      if DeclaredBySome(a, t) {
        var p :| 0 <= p < |a| && t in PostTags(a[p]);
        assert a[p] in b;
        var q :| 0 <= q < |b| && b[q] == a[p];
      }
      if DeclaredBySome(b, t) {
        var p :| 0 <= p < |b| && t in PostTags(b[p]);
        assert b[p] in a;
        var q :| 0 <= q < |a| && a[q] == b[p];
      }
    }
  }
}
