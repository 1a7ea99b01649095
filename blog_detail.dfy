/** The blog post page: the route's slug is looked up among the posts, the
    post's content is laid out one paragraph per line, and up to three
    related posts (another post sharing a tag) are offered below it. */
module BlogDetail {
  import opened Seqs
  import opened Text
  import opened Blogs

  /** `blogsData.find(b => b.slug === slug)`. */
  function LookupBlog(blogs: seq<Blog>, slug: string): (r: Option<Blog>)
    ensures r.Some? ==> r.value in blogs && r.value.slug == slug
    ensures r.None? <==> forall b :: b in blogs ==> b.slug != slug
    ensures r.Some? ==> exists k :: 0 <= k < |blogs| && blogs[k] == r.value &&
                                    forall m :: 0 <= m < k ==> blogs[m].slug != slug
  {
    FindFirst(blogs, (b: Blog) => b.slug == slug)
  }

  /** The link `/blog/<slug>` of a post leads to that post when slugs are
      unique, and to the first post with that slug otherwise. */
  lemma LinkFindsPost(blogs: seq<Blog>, k: nat)
    requires k < |blogs|
    ensures var r := LookupBlog(blogs, blogs[k].slug);
            && r.Some?
            && (exists m :: 0 <= m <= k && blogs[m] == r.value &&
                 forall j :: 0 <= j < m ==> blogs[j].slug != blogs[k].slug)
            && ((forall i, j :: 0 <= i < |blogs| && 0 <= j < |blogs| && blogs[i].slug == blogs[j].slug ==> i == j)
                ==> r.value == blogs[k])
  {
    var p := (b: Blog) => b.slug == blogs[k].slug;
    var r := FindFirst(blogs, p);
    assert p(blogs[k]);
    var m :| 0 <= m < |blogs| && blogs[m] == r.value && p(blogs[m]) &&
             forall j :: 0 <= j < m ==> !p(blogs[j]);
    assert m <= k;
  }

  /** `b.tags.some(tag => current.tags.includes(tag))`. */
  predicate SharesTag(b: Blog, current: Blog) {
    exists i :: 0 <= i < |b.tags| && b.tags[i] in current.tags
  }

  lemma SharesTagSymmetric(a: Blog, b: Blog)
    ensures SharesTag(a, b) <==> SharesTag(b, a)
  {
    if SharesTag(a, b) {
      var i :| 0 <= i < |a.tags| && a.tags[i] in b.tags;
      var j :| 0 <= j < |b.tags| && b.tags[j] == a.tags[i];
      assert b.tags[j] in a.tags;
    }
    if SharesTag(b, a) {
      var i :| 0 <= i < |b.tags| && b.tags[i] in a.tags;
      var j :| 0 <= j < |a.tags| && a.tags[j] == b.tags[i];
      assert a.tags[j] in b.tags;
    }
  }

  predicate IsRelated(b: Blog, current: Blog) {
    b.id != current.id && SharesTag(b, current)
  }

  /** The posts offered under "Related Posts": the first three other posts
      that share a tag with the current one, in the order of `blogs`. */
  function RelatedBlogs(blogs: seq<Blog>, current: Blog): (r: seq<Blog>)
    ensures |r| <= 3
    ensures forall b :: b in r ==> b in blogs && b.id != current.id && SharesTag(b, current)
  {
    Slice(Filter(blogs, (b: Blog) => IsRelated(b, current)), 0, 3)
  }

  lemma RelatedBlogsAreRelated(blogs: seq<Blog>, current: Blog)
    ensures var r := RelatedBlogs(blogs, current);
            var q := Filter(blogs, (b: Blog) => IsRelated(b, current));
            && |r| == (if |q| < 3 then |q| else 3)
            && r == q[..|r|]
            && current !in r
            && (forall b :: b in r ==> b.id != current.id && SharesTag(b, current))
            && SubsequenceOf(r, blogs)
  {
    var p := (b: Blog) => IsRelated(b, current);
    var q := Filter(blogs, p);
    var r := RelatedBlogs(blogs, current);
    SliceIsSubsequence(q, 0, 3);
    FilterIsSubsequence(blogs, p);
    SubsequenceTransitive(r, q, blogs);
    assert forall b :: b in r ==> b in q;
  }

  /** Relatedness goes both ways: a post offered under another is one that
      the other qualifies to be offered under (the cut at three aside). */
  lemma RelatedIsMutual(blogs: seq<Blog>, a: Blog, b: Blog)
    requires a in blogs && b in RelatedBlogs(blogs, a)
    ensures a in Filter(blogs, (x: Blog) => IsRelated(x, b))
  {
    RelatedBlogsAreRelated(blogs, a);
    SharesTagSymmetric(a, b);
  }

  /** When the listing page has sorted the shared fixture first, the related
      posts are the (up to) three newest qualifying posts: a prefix of the
      qualifying posts sorted newest first. */
  lemma RelatedAfterListSort(blogs: seq<Blog>, current: Blog)
    ensures var q := Filter(blogs, (b: Blog) => IsRelated(b, current));
            var sorted := SortNewestFirstSpec(q);
            var r := RelatedBlogs(SortNewestFirstSpec(blogs), current);
            && NewestFirst(sorted)
            && multiset(sorted) == multiset(q)
            && |sorted| == |q|
            && |r| == (if |q| < 3 then |q| else 3)
            && r == sorted[..|r|]
  {
    var p := (b: Blog) => IsRelated(b, current);
    var q := Filter(blogs, p);
    FilterSortCommute(blogs, p);
    SortIsNewestFirst(q);
    SortIsPermutation(q);
    assert |SortNewestFirstSpec(q)| == |q| by {
      assert |multiset(SortNewestFirstSpec(q))| == |multiset(q)|;
    }
  }

  /** `content.split('\n')`: one paragraph per line of the content; an empty
      content gives one empty paragraph. */
  function Paragraphs(content: string): (r: seq<string>)
    ensures |r| == multiset(content)['\n'] + 1
    ensures forall k :: 0 <= k < |r| ==> '\n' !in r[k]
    ensures Join(r, '\n') == content
  {
    SplitCount(content, '\n');
    SplitPiecesFree(content, '\n');
    JoinSplit(content, '\n');
    Split(content, '\n')
  }

  /** What the route renders. */
  datatype Screen =
    | Loading
    | NotFound
    | Article(post: Blog, paragraphs: seq<string>, related: seq<Blog>)

  /** The state held by the page: the post found, the loading flag and the
      related posts. `blogsData` is the shared fixture array. */
  class BlogDetailPage {
    const blogsData: array<Blog>
    var blog: Option<Blog>
    var loading: bool
    var relatedBlogs: seq<Blog>

    /** The related posts on display belong to the post on display. */
    predicate RelatedUpToDate()
      reads this, blogsData
    {
      blog.Some? ==> relatedBlogs == RelatedBlogs(blogsData[..], blog.value)
    }

    constructor (blogsData: array<Blog>)
      ensures this.blogsData == blogsData
      ensures blog == None && loading && relatedBlogs == []
      ensures RelatedUpToDate()
    {
      this.blogsData := blogsData;
      blog := None;
      loading := true;
      relatedBlogs := [];
    }

    /** The effect run for each new slug. When the slug is not found the
        related list is left as the previous post had it. */
    method OnSlug(slug: string)
      modifies this
      ensures blog == LookupBlog(blogsData[..], slug)
      ensures blog.Some? ==> relatedBlogs == RelatedBlogs(blogsData[..], blog.value)
      ensures blog.None? ==> relatedBlogs == old(relatedBlogs)
      ensures !loading
      ensures RelatedUpToDate()
    {
      var found := LookupBlog(blogsData[..], slug);
      blog := found;
      if found.Some? {
        relatedBlogs := RelatedBlogs(blogsData[..], found.value);
      }
      loading := false;
    }

    /** The render: a spinner while loading, "Blog Post Not Found" when no
        post has the slug, and otherwise the article. */
    function View(): (screen: Screen)
      reads this, blogsData
      ensures screen.Loading? <==> loading
      ensures screen.NotFound? <==> !loading && blog.None?
      ensures screen.Article? ==>
                && Some(screen.post) == blog
                && screen.related == relatedBlogs
                && screen.paragraphs == Paragraphs(screen.post.content)
                && Join(screen.paragraphs, '\n') == screen.post.content
      ensures screen.Article? && RelatedUpToDate() ==>
                screen.related == RelatedBlogs(blogsData[..], screen.post)
    {
      if loading then Loading
      else match blog
        case None => NotFound
        case Some(b) => Article(b, Paragraphs(b.content), relatedBlogs)
    }
  }

  /** Once the effect has run for a slug, the page shows "Blog Post Not
      Found" exactly when no post has the slug, and otherwise a post
      carrying it, with that post's related posts. */
  lemma NotFoundIffNoSuchSlug(page: BlogDetailPage, slug: string)
    requires !page.loading && page.blog == LookupBlog(page.blogsData[..], slug)
    requires page.RelatedUpToDate()
    ensures page.View().NotFound? <==> forall b :: b in page.blogsData[..] ==> b.slug != slug
    ensures page.View().Article? ==>
              && page.View().post in page.blogsData[..]
              && page.View().post.slug == slug
              && page.View().related == RelatedBlogs(page.blogsData[..], page.View().post)
  {
  }
}
