/** The blog listing page: the tag buttons, the tag, featured and search
    filters, the newest-first sort (done in place on the shared fixture
    array), the split into a featured card and a grid, and the page state. */
module Blogs {
  import opened Seqs
  import opened Text

  /** A post; `date` is its publication date, already read as a number that
      grows with time. */
  datatype Blog = Blog(
    id: int,
    slug: string,
    title: string,
    excerpt: string,
    content: string,
    tags: seq<string>,
    featured: bool,
    date: int)

  /** The tag sentinel that switches the tag filter off. */
  const All: string := "All"

  /** The three filter controls of the page. */
  datatype Filters = Filters(tag: string, featuredOnly: bool, search: string)

  /** The state the page starts in, and that "Clear Filters" restores. */
  const InitialFilters: Filters := Filters(All, false, "")

  function TagLists(blogs: seq<Blog>): (r: seq<seq<string>>)
    ensures |r| == |blogs|
    ensures forall i :: 0 <= i < |r| ==> r[i] == blogs[i].tags
  {
    seq(|blogs|, i requires 0 <= i < |blogs| => blogs[i].tags)
  }

  /** Every tag of every post, post after post: `blogsData.flatMap(blog => blog.tags)`. */
  function AllTags(blogs: seq<Blog>): (r: seq<string>)
    ensures forall t :: t in r <==> exists b :: b in blogs && t in b.tags
  {
    var lists := TagLists(blogs);
    assert forall b, t :: b in blogs && t in b.tags ==> exists i :: 0 <= i < |lists| && t in lists[i];
    Flatten(lists)
  }

  /** The flattened tag list is the posts' tag lists laid end to end, post
      after post: one post gives its own tags, and a list of posts split in
      two gives the two halves' tags one after the other. */
  lemma AllTagsConcat(a: seq<Blog>, b: seq<Blog>, x: Blog)
    ensures AllTags([x]) == x.tags
    ensures AllTags(a + b) == AllTags(a) + AllTags(b)
  {
    assert TagLists([x]) == [x.tags];
    FlattenSingle(x.tags);
    assert TagLists(a + b) == TagLists(a) + TagLists(b);
    FlattenConcat(TagLists(a), TagLists(b));
  }

  /** `tags`: "All", then every tag once, in order of first appearance. */
  function Tags(blogs: seq<Blog>): (r: seq<string>)
    ensures |r| >= 1 && r[0] == All
    ensures forall t :: t in r[1..] <==> exists b :: b in blogs && t in b.tags
    ensures NoDuplicates(r[1..])
  {
    var d := Distinct(AllTags(blogs));
    assert ([All] + d)[1..] == d;
    [All] + d
  }

  /** The tag buttons after "All" come in order of first appearance in the
      flattened tag list. */
  lemma TagsFirstAppearance(blogs: seq<Blog>)
    ensures var all := AllTags(blogs);
            forall i, j, k ::
              (1 <= i < j < |Tags(blogs)| && 0 <= k < |all| && all[k] == Tags(blogs)[j]) ==>
              Tags(blogs)[i] in all[..k]
  {
    var all := AllTags(blogs);
    DistinctFirstAppearance(all);
    var r := Tags(blogs);
    assert r[1..] == Distinct(all);
    forall i, j, k | 1 <= i < j < |r| && 0 <= k < |all| && all[k] == r[j]
      ensures r[i] in all[..k]
    {
      assert r[i] == Distinct(all)[i - 1] && r[j] == Distinct(all)[j - 1];
    }
  }

  /** The search predicate: the lowered term occurs in the lowered title,
      excerpt or content. Tags are not searched. */
  predicate SearchHit(b: Blog, term: string) {
    var t := ToLower(term);
    || Includes(ToLower(b.title), t)
    || Includes(ToLower(b.excerpt), t)
    || Includes(ToLower(b.content), t)
  }

  /** A post passes when it passes every active filter. */
  predicate Matches(b: Blog, f: Filters) {
    && (f.tag == All || f.tag in b.tags)
    && (!f.featuredOnly || b.featured)
    && (f.search == "" || SearchHit(b, f.search))
  }

  /** The posts that pass the filters, in fixture order. */
  function Selected(blogs: seq<Blog>, f: Filters): seq<Blog> {
    Filter(blogs, b => Matches(b, f))
  }

  /** Every selected post passes every active filter, and every post that
      passes them all is selected. */
  lemma SelectedExactly(blogs: seq<Blog>, f: Filters, b: Blog)
    ensures b in Selected(blogs, f) <==>
              && b in blogs
              && (f.tag != All ==> f.tag in b.tags)
              && (f.featuredOnly ==> b.featured)
              && (f.search != "" ==> SearchHit(b, f.search))
  {
  }

  /** The search never looks at the tags, whatever the search box's
      placeholder text suggests: with the tag filter off, changing a post's
      tags changes neither whether it is a search hit nor whether it passes. */
  lemma TagsAreNotSearched(b: Blog, tags: seq<string>, featuredOnly: bool, term: string)
    ensures SearchHit(b.(tags := tags), term) == SearchHit(b, term)
    ensures Matches(b.(tags := tags), Filters(All, featuredOnly, term)) == Matches(b, Filters(All, featuredOnly, term))
  {
  }

  /** For instance, a post that mentions "React" only as a tag is not found
      by the term "React". */
  lemma TagOnlyMentionIsMissed()
    ensures var b := Blog(1, "post", "Post", "", "", ["React"], false, 0);
            "React" in b.tags && !Matches(b, Filters(All, false, "React"))
  {
    var b := Blog(1, "post", "Post", "", "", ["React"], false, 0);
    var t := ToLower("React");
    assert t[0] == 'r';
    assert !Includes(ToLower(b.title), t) by {
      assert |ToLower(b.title)| < |t|;
    }
  }

  /** Two search terms that lower to the same string select the same posts. */
  lemma SearchIgnoresCase(blogs: seq<Blog>, f: Filters, term: string, other: string)
    requires ToLower(term) == ToLower(other)
    ensures Selected(blogs, f.(search := term)) == Selected(blogs, f.(search := other))
  {
    var f1, f2 := f.(search := term), f.(search := other);
    assert |term| == |ToLower(term)| == |ToLower(other)| == |other|;
    assert forall b :: Matches(b, f1) == Matches(b, f2);
    FilterExt(blogs, b => Matches(b, f1), b => Matches(b, f2));
    assert Selected(blogs, f1) == Filter(blogs, b => Matches(b, f1));
    assert Selected(blogs, f2) == Filter(blogs, b => Matches(b, f2));
  }

  /** The source's three conditional passes over the fixture, one after
      another; they agree with the single filter `Selected`. */
  method FilterBlogs(blogs: seq<Blog>, f: Filters) returns (filtered: seq<Blog>)
    ensures filtered == Selected(blogs, f)
  {
    ghost var byTag := (b: Blog) => f.tag == All || f.tag in b.tags;
    ghost var byFeatured := (b: Blog) => byTag(b) && (!f.featuredOnly || b.featured);
    ghost var bySearch := (b: Blog) => byFeatured(b) && (f.search == "" || SearchHit(b, f.search));

    filtered := blogs;
    if f.tag != All {
      filtered := Filter(filtered, (b: Blog) => f.tag in b.tags);
      FilterExt(blogs, (b: Blog) => f.tag in b.tags, byTag);
    } else {
      FilterAll(blogs, byTag);
    }
    assert filtered == Filter(blogs, byTag);

    if f.featuredOnly {
      filtered := Filter(filtered, (b: Blog) => b.featured);
      FilterFilter(blogs, byTag, (b: Blog) => b.featured, byFeatured);
    } else {
      FilterExt(blogs, byTag, byFeatured);
    }
    assert filtered == Filter(blogs, byFeatured);

    if f.search != "" {
      filtered := Filter(filtered, (b: Blog) => SearchHit(b, f.search));
      FilterFilter(blogs, byFeatured, (b: Blog) => SearchHit(b, f.search), bySearch);
    } else {
      FilterExt(blogs, byFeatured, bySearch);
    }
    FilterExt(blogs, bySearch, b => Matches(b, f));
  }

  // ---------------------------------------------------------------------
  // Newest first: `sort((a, b) => new Date(b.date) - new Date(a.date))`

  predicate NewestFirst(s: seq<Blog>) {
    forall i, j :: 0 <= i < j < |s| ==> s[i].date >= s[j].date
  }

  /** Puts `b` in front of the first post that is not newer than it. */
  function Insert(b: Blog, s: seq<Blog>): seq<Blog> {
    if s == [] || s[0].date <= b.date then [b] + s
    else [s[0]] + Insert(b, s[1..])
  }

  /** The reference stable sort, newest first: posts with equal dates keep
      their relative order. */
  function SortNewestFirstSpec(s: seq<Blog>): seq<Blog> {
    if s == [] then [] else Insert(s[0], SortNewestFirstSpec(s[1..]))
  }

  lemma {:induction false} InsertElements(b: Blog, s: seq<Blog>)
    ensures |Insert(b, s)| == |s| + 1
    ensures forall x :: x in Insert(b, s) <==> x == b || x in s
  {
    if s != [] && s[0].date > b.date {
      InsertElements(b, s[1..]);
      assert s == [s[0]] + s[1..];
    }
  }

  lemma {:induction false} InsertMultiset(b: Blog, s: seq<Blog>)
    ensures multiset(Insert(b, s)) == multiset(s) + multiset{b}
  {
    if s != [] && s[0].date > b.date {
      InsertMultiset(b, s[1..]);
      assert s == [s[0]] + s[1..];
      assert multiset(s) == multiset{s[0]} + multiset(s[1..]);
    }
  }

  /** The sort only reorders: it neither loses nor adds nor repeats a post. */
  lemma {:induction false} SortIsPermutation(s: seq<Blog>)
    ensures multiset(SortNewestFirstSpec(s)) == multiset(s)
  {
    if s != [] {
      SortIsPermutation(s[1..]);
      InsertMultiset(s[0], SortNewestFirstSpec(s[1..]));
      assert s == [s[0]] + s[1..];
      assert multiset(s) == multiset{s[0]} + multiset(s[1..]);
    }
  }

  lemma {:induction false} InsertKeepsOrder(b: Blog, s: seq<Blog>)
    requires NewestFirst(s)
    ensures NewestFirst(Insert(b, s))
  {
    if s == [] || s[0].date <= b.date {
      var r := [b] + s;
      forall i, j | 0 <= i < j < |r| ensures r[i].date >= r[j].date {
        if i > 0 {
          assert r[i] == s[i - 1] && r[j] == s[j - 1];
        } else {
          assert r[j] == s[j - 1] && s[0].date >= s[j - 1].date;
        }
      }
    } else {
      var t := s[1..];
      assert NewestFirst(t) by {
        forall i, j | 0 <= i < j < |t| ensures t[i].date >= t[j].date {
          assert t[i] == s[i + 1] && t[j] == s[j + 1];
        }
      }
      InsertKeepsOrder(b, t);
      InsertElements(b, t);
      var rest := Insert(b, t);
      var r := [s[0]] + rest;
      forall i, j | 0 <= i < j < |r| ensures r[i].date >= r[j].date {
        if i > 0 {
          assert r[i] == rest[i - 1] && r[j] == rest[j - 1];
        } else {
          assert r[j] == rest[j - 1] && rest[j - 1] in rest;
          if rest[j - 1] != b {
            var k :| 0 <= k < |t| && t[k] == rest[j - 1];
            assert t[k] == s[k + 1];
          }
        }
      }
    }
  }

  /** The reference sort orders posts newest first. */
  lemma {:induction false} SortIsNewestFirst(s: seq<Blog>)
    ensures NewestFirst(SortNewestFirstSpec(s))
  {
    if s != [] {
      SortIsNewestFirst(s[1..]);
      InsertKeepsOrder(s[0], SortNewestFirstSpec(s[1..]));
    }
  }

  /** Sorting a list that is already newest first changes nothing. */
  lemma {:induction false} SortOfSorted(s: seq<Blog>)
    requires NewestFirst(s)
    ensures SortNewestFirstSpec(s) == s
  {
    if s != [] {
      SortOfSorted(s[1..]);
      assert s == [s[0]] + s[1..];
    }
  }

  /** Sorting twice is sorting once. */
  lemma SortIdempotent(s: seq<Blog>)
    ensures SortNewestFirstSpec(SortNewestFirstSpec(s)) == SortNewestFirstSpec(s)
  {
    SortIsNewestFirst(s);
    SortOfSorted(SortNewestFirstSpec(s));
  }

  lemma NewestFirstTail(s: seq<Blog>)
    requires NewestFirst(s) && s != []
    ensures NewestFirst(s[1..])
    ensures forall x :: x in s ==> x.date <= s[0].date
  {
    var t := s[1..];
    forall i, j | 0 <= i < j < |t| ensures t[i].date >= t[j].date {
      assert t[i] == s[i + 1] && t[j] == s[j + 1];
    }
  }

  /** The case where `b` goes in front: it also goes in front of any
      filtered part of `s`. */
  lemma {:induction false} FilterInsertFront(b: Blog, s: seq<Blog>, p: Blog -> bool)
    requires NewestFirst(s)
    requires s == [] || s[0].date <= b.date
    ensures Filter(Insert(b, s), p) == if p(b) then Insert(b, Filter(s, p)) else Filter(s, p)
  {
    var fs := Filter(s, p);
    assert Insert(b, s) == [b] + s;
    FilterCons(b, s, p);
    if fs != [] {
      FilterFirst(s, p);
      NewestFirstTail(s);
      assert fs[0] in s;
      assert Insert(b, fs) == [b] + fs;
    }
  }

  /** The case where `b` goes behind the first post `x`: `x` stays in front
      whenever it survives the filter. */
  lemma {:induction false} FilterInsertBehind(b: Blog, s: seq<Blog>, p: Blog -> bool)
    requires s != [] && s[0].date > b.date
    requires Filter(Insert(b, s[1..]), p) ==
               if p(b) then Insert(b, Filter(s[1..], p)) else Filter(s[1..], p)
    ensures Filter(Insert(b, s), p) == if p(b) then Insert(b, Filter(s, p)) else Filter(s, p)
  {
    var x, t := s[0], s[1..];
    var r := Insert(b, t);
    var ft := Filter(t, p);
    assert Insert(b, s) == [x] + r;
    FilterCons(x, r, p);
    assert s == [x] + t;
    FilterCons(x, t, p);
    var head := if p(x) then [x] else [];
    assert Filter(Insert(b, s), p) == head + Filter(r, p);
    assert Filter(s, p) == head + ft;
    if p(b) {
      if p(x) {
        InsertBehind(b, x, ft);
      } else {
        assert head + ft == ft;
        assert head + Filter(r, p) == Filter(r, p);
      }
    }
  }

  lemma InsertBehind(b: Blog, x: Blog, s: seq<Blog>)
    requires x.date > b.date
    ensures Insert(b, [x] + s) == [x] + Insert(b, s)
  {
    assert ([x] + s)[0] == x && ([x] + s)[1..] == s;
  }

  lemma {:induction false} FilterInsert(b: Blog, s: seq<Blog>, p: Blog -> bool)
    requires NewestFirst(s)
    ensures Filter(Insert(b, s), p) == if p(b) then Insert(b, Filter(s, p)) else Filter(s, p)
  {
    if s == [] || s[0].date <= b.date {
      FilterInsertFront(b, s, p);
    } else {
      NewestFirstTail(s);
      FilterInsert(b, s[1..], p);
      FilterInsertBehind(b, s, p);
    }
  }

  /** Filtering and the stable sort commute. */
  lemma {:induction false} FilterSortCommute(s: seq<Blog>, p: Blog -> bool)
    ensures Filter(SortNewestFirstSpec(s), p) == SortNewestFirstSpec(Filter(s, p))
  {
    if s != [] {
      var t := s[1..];
      FilterSortCommute(t, p);
      SortIsNewestFirst(t);
      FilterInsert(s[0], SortNewestFirstSpec(t), p);
      assert s == [s[0]] + t;
      FilterCons(s[0], t, p);
      if p(s[0]) {
        var ft := Filter(t, p);
        assert Filter(s, p) == [s[0]] + ft;
        assert ([s[0]] + ft)[0] == s[0] && ([s[0]] + ft)[1..] == ft;
        assert SortNewestFirstSpec([s[0]] + ft) == Insert(s[0], SortNewestFirstSpec(ft));
      } else {
        assert Filter(s, p) == Filter(t, p);
      }
    }
  }

  lemma {:induction false} SameDateIsNewestFirst(s: seq<Blog>, d: int)
    requires forall x :: x in s ==> x.date == d
    ensures NewestFirst(s)
  {
    assert forall i :: 0 <= i < |s| ==> s[i] in s;
  }

  /** The sort is stable: for every date, the posts of that date appear in
      the sorted list in the order they had before. */
  lemma SortIsStable(s: seq<Blog>, d: int)
    ensures Filter(SortNewestFirstSpec(s), (b: Blog) => b.date == d) == Filter(s, (b: Blog) => b.date == d)
  {
    var p := (b: Blog) => b.date == d;
    FilterSortCommute(s, p);
    SameDateIsNewestFirst(Filter(s, p), d);
    SortOfSorted(Filter(s, p));
  }

  /** Where the insertion step leaves `b`: after the `m` posts newer than it. */
  lemma {:induction false} InsertAt(b: Blog, s: seq<Blog>, m: nat)
    requires m <= |s|
    requires forall k :: 0 <= k < m ==> s[k].date > b.date
    requires m == |s| || s[m].date <= b.date
    ensures Insert(b, s) == s[..m] + [b] + s[m..]
  {
    if m > 0 {
      var t := s[1..];
      InsertAt(b, t, m - 1);
      assert Insert(b, s) == [s[0]] + Insert(b, t);
      assert t[..m - 1] == s[1..m];
      assert t[m - 1..] == s[m..];
      assert s[..m] == [s[0]] + s[1..m];
    }
  }

  /** The inner loop of an insertion step: the posts after `a[i]` that are
      newer than `b` move one place left, leaving a gap at `j` just before
      the first post that is not newer. */
  method MakeRoom(a: array<Blog>, i: nat, b: Blog) returns (j: nat)
    requires i < a.Length
    modifies a
    ensures i <= j < a.Length
    ensures forall k :: 0 <= k < i ==> a[k] == old(a[k])
    ensures forall k :: i <= k < j ==> a[k] == old(a[k + 1])
    ensures forall k :: j < k < a.Length ==> a[k] == old(a[k])
    ensures forall k :: i < k <= j ==> old(a[k]).date > b.date
    ensures j + 1 == a.Length || old(a[j + 1]).date <= b.date
  {
    j := i;
    while j + 1 < a.Length && a[j + 1].date > b.date
      invariant i <= j < a.Length
      invariant forall k :: 0 <= k < i ==> a[k] == old(a[k])
      invariant forall k :: i <= k < j ==> a[k] == old(a[k + 1])
      invariant forall k :: j < k < a.Length ==> a[k] == old(a[k])
      invariant forall k :: i < k <= j ==> old(a[k]).date > b.date
    {
      a[j] := a[j + 1];
      j := j + 1;
    }
  }

  /** One insertion step: `a[i]` moves right past the newer posts of the
      already sorted suffix `a[i + 1..]`, which shift one place left. */
  method InsertStep(a: array<Blog>, i: nat)
    requires i < a.Length
    modifies a
    ensures a[..i] == old(a[..i])
    ensures a[i..] == Insert(old(a[i]), old(a[i + 1..]))
  {
    var b := a[i];
    ghost var sorted := a[i + 1..];
    var j := MakeRoom(a, i, b);
    a[j] := b;
    InsertAt(b, sorted, j - i);
    InsertedShape(a[i..], sorted, b, j - i);
  }

  /** A sequence that agrees with `sorted` up to `m`, holds `b` at `m` and
      then agrees with the rest of `sorted` is `sorted` with `b` put in at `m`. */
  lemma InsertedShape(r: seq<Blog>, sorted: seq<Blog>, b: Blog, m: nat)
    requires |r| == |sorted| + 1 && m <= |sorted|
    requires forall k :: 0 <= k < m ==> r[k] == sorted[k]
    requires r[m] == b
    requires forall k :: m < k < |r| ==> r[k] == sorted[k - 1]
    ensures r == sorted[..m] + [b] + sorted[m..]
  {
    var want := sorted[..m] + [b] + sorted[m..];
    forall k | 0 <= k < |want| ensures r[k] == want[k] {
      if k < m {
        assert want[k] == sorted[k];
      } else if k > m {
        assert want[k] == sorted[k - 1];
      }
    }
  }

  /** `filtered.sort(...)`, in place: a stable insertion sort that grows a
      sorted suffix from the right. */
  method SortNewestFirst(a: array<Blog>)
    modifies a
    ensures a[..] == SortNewestFirstSpec(old(a[..]))
  {
    var i := a.Length;
    while i > 0
      invariant 0 <= i <= a.Length
      invariant a[..i] == old(a[..i])
      invariant a[i..] == SortNewestFirstSpec(old(a[..])[i..])
    {
      i := i - 1;
      ghost var before := a[..];
      InsertStep(a, i);
      assert old(a[..])[i..] == [before[i]] + old(a[..])[i + 1..];
    }
    assert a[..] == a[0..];
  }

  // ---------------------------------------------------------------------
  // What the page shows

  /** With no filter active the page lists every post, newest first. */
  lemma InactiveFiltersShowAllNewestFirst(blogs: seq<Blog>, f: Filters)
    requires !FiltersActive(f)
    ensures SortNewestFirstSpec(Selected(blogs, f)) == SortNewestFirstSpec(blogs)
  {
    FilterAll(blogs, b => Matches(b, f));
  }

  /** Whether the "Clear Filters" button is shown; also whether any
      `.filter` pass runs, so whether the sort works on a copy. */
  predicate FiltersActive(f: Filters) {
    f.tag != All || f.featuredOnly || f.search != ""
  }

  lemma ClearButtonShownIffChanged(f: Filters)
    ensures FiltersActive(f) <==> f != InitialFilters
  {
  }

  /** Sorting the shared fixture in place does not change the listed posts:
      filtering the already sorted fixture and sorting again gives the same
      list as working from the original order. */
  lemma ResortedFixtureGivesSameView(blogs: seq<Blog>, f: Filters)
    ensures SortNewestFirstSpec(Selected(SortNewestFirstSpec(blogs), f)) ==
            SortNewestFirstSpec(Selected(blogs, f))
  {
    FilterSortCommute(blogs, b => Matches(b, f));
    SortIdempotent(Selected(blogs, f));
  }

  /** The tag buttons are recomputed from the shared array on every visit.
      Once it has been sorted in place they are the same buttons, "All"
      still first, though possibly in another order. */
  lemma ResortKeepsTagButtons(blogs: seq<Blog>)
    ensures var r := Tags(SortNewestFirstSpec(blogs));
            && |r| == |Tags(blogs)| && r[0] == All
            && forall t :: t in r <==> t in Tags(blogs)
  {
    var sorted := SortNewestFirstSpec(blogs);
    SortIsPermutation(blogs);
    assert forall b :: b in sorted <==> b in blogs by {
      forall b ensures b in sorted <==> b in blogs {
        assert b in sorted <==> b in multiset(sorted);
        assert b in blogs <==> b in multiset(blogs);
      }
    }
    var r, q := Tags(sorted), Tags(blogs);
    assert forall t :: t in r[1..] <==> t in q[1..];
    assert r == [r[0]] + r[1..] && q == [q[0]] + q[1..];
    SameElementsSameLength(r[1..], q[1..]);
  }

  /** Two duplicate-free lists with the same elements have the same length. */
  lemma SameElementsSameLength(a: seq<string>, b: seq<string>)
    requires NoDuplicates(a) && NoDuplicates(b)
    requires forall t :: t in a <==> t in b
    ensures |a| == |b|
  {
    DistinctCardinality(a);
    DistinctCardinality(b);
    assert (set t | t in a) == (set t | t in b);
  }

  /** The buttons can come back in another order: post `a` (older, tag "x")
      before post `b` (newer, tag "y") gives "All", "x", "y"; after the
      in-place sort the same posts give "All", "y", "x". */
  lemma ResortCanReorderTagButtons()
    ensures var a := Blog(1, "a", "A", "", "", ["x"], false, 1);
            var b := Blog(2, "b", "B", "", "", ["y"], false, 2);
            && Tags([a, b]) == [All, "x", "y"]
            && Tags(SortNewestFirstSpec([a, b])) == [All, "y", "x"]
  {
    var a := Blog(1, "a", "A", "", "", ["x"], false, 1);
    var b := Blog(2, "b", "B", "", "", ["y"], false, 2);
    SortTwo(a, b);
    TagsOfTwo(a, b, "x", "y");
    TagsOfTwo(b, a, "y", "x");
  }

  lemma SortTwo(a: Blog, b: Blog)
    requires a.date < b.date
    ensures SortNewestFirstSpec([a, b]) == [b, a]
  {
    assert [a, b][1..] == [b] && [b][1..] == [];
    assert SortNewestFirstSpec([b]) == Insert(b, []) == [b];
    assert Insert(a, [b]) == [b] + Insert(a, []) == [b] + [a] == [b, a];
  }

  lemma TagsOfTwo(a: Blog, b: Blog, x: string, y: string)
    requires a.tags == [x] && b.tags == [y] && x != y
    ensures Tags([a, b]) == [All, x, y]
  {
    AllTagsOfTwo(a, b);
    assert AllTags([a, b]) == [x, y];
    DistinctOfTwo(x, y);
  }

  lemma AllTagsOfTwo(a: Blog, b: Blog)
    ensures AllTags([a, b]) == a.tags + b.tags
  {
    AllTagsConcat([a], [b], a);
    AllTagsConcat([], [], b);
    assert [a] + [b] == [a, b];
  }

  lemma DistinctOfTwo(p: string, q: string)
    requires p != q
    ensures Distinct([p, q]) == [p, q]
  {
    assert Distinct([p]) == [p] by {
      assert [p][..0] == [];
      assert [] + [p] == [p];
    }
    assert [p, q][..1] == [p];
    assert q !in [p];
    assert [p] + [q] == [p, q];
  }

  /** The "Featured Article" section: at most the first featured post. */
  function FeaturedSection(shown: seq<Blog>): (r: seq<Blog>)
    ensures |r| <= 1
    ensures forall b :: b in r ==> b in shown && b.featured
  {
    Slice(Filter(shown, (b: Blog) => b.featured), 0, 1)
  }

  /** The grid: every post that is not featured, in order. */
  function Grid(shown: seq<Blog>): (r: seq<Blog>)
    ensures |r| <= |shown|
    ensures forall b :: b in r <==> b in shown && !b.featured
  {
    Filter(shown, (b: Blog) => !b.featured)
  }

  /** The featured section is empty when nothing shown is featured, and
      otherwise holds exactly the first featured post. */
  lemma FeaturedSectionIsFirstFeatured(shown: seq<Blog>)
    ensures |FeaturedSection(shown)| <= 1
    ensures FeaturedSection(shown) == [] <==> forall b :: b in shown ==> !b.featured
    ensures FeaturedSection(shown) != [] ==>
              exists k :: 0 <= k < |shown| && shown[k].featured && FeaturedSection(shown) == [shown[k]] &&
                          forall m :: 0 <= m < k ==> !shown[m].featured
  {
    var fs := Filter(shown, (b: Blog) => b.featured);
    if fs != [] {
      FilterFirst(shown, (b: Blog) => b.featured);
      assert FeaturedSection(shown) == [fs[0]];
    }
  }

  /** The grid holds exactly the non-featured posts, in order. */
  lemma GridIsNonFeatured(shown: seq<Blog>)
    ensures forall b :: b in Grid(shown) <==> b in shown && !b.featured
    ensures SubsequenceOf(Grid(shown), shown)
  {
    FilterIsSubsequence(shown, (b: Blog) => !b.featured);
  }

  /** Every featured post after the first is shown nowhere: the number of
      posts missing from the page is the number of featured posts less one. */
  lemma HiddenFeaturedCount(shown: seq<Blog>)
    ensures var featured := |Filter(shown, (b: Blog) => b.featured)|;
            |shown| - |FeaturedSection(shown)| - |Grid(shown)| ==
              if featured == 0 then 0 else featured - 1
  {
    FilterComplementLength(shown, (b: Blog) => b.featured, (b: Blog) => !b.featured);
  }

  /** The state held by the page. `blogsData` is the imported fixture, one
      array shared with every other module that imports it. */
  class BlogPage {
    const blogsData: array<Blog>
    var selectedTag: string
    var showFeaturedOnly: bool
    var searchTerm: string

    function CurrentFilters(): Filters
      reads this
    {
      Filters(selectedTag, showFeaturedOnly, searchTerm)
    }

    constructor (blogsData: array<Blog>)
      ensures this.blogsData == blogsData
      ensures CurrentFilters() == InitialFilters
    {
      this.blogsData := blogsData;
      selectedTag := All;
      showFeaturedOnly := false;
      searchTerm := "";
    }

    /** A tag button, or a "Popular Topics" button. */
    method SelectTag(tag: string)
      modifies this
      ensures CurrentFilters() == old(CurrentFilters()).(tag := tag)
    {
      selectedTag := tag;
    }

    /** The "Featured Only" button. */
    method ToggleFeatured()
      modifies this
      ensures CurrentFilters() == old(CurrentFilters()).(featuredOnly := !old(showFeaturedOnly))
    {
      showFeaturedOnly := !showFeaturedOnly;
    }

    /** Typing in the search box, or its clear button with the empty term. */
    method SetSearchTerm(term: string)
      modifies this
      ensures CurrentFilters() == old(CurrentFilters()).(search := term)
    {
      searchTerm := term;
    }

    /** `clearFilters`: back to the initial filters; calling it again changes nothing. */
    method ClearFilters()
      modifies this
      ensures CurrentFilters() == InitialFilters
      ensures old(CurrentFilters()) == InitialFilters ==> CurrentFilters() == old(CurrentFilters())
    {
      selectedTag := All;
      showFeaturedOnly := false;
      searchTerm := "";
    }

    /** `filteredBlogs`: the selected posts, newest first. With no filter
        active no copy is made, so the fixture array itself is sorted and
        returned; otherwise a fresh array is sorted and the fixture is left
        as it was. */
    method FilteredBlogs() returns (r: array<Blog>)
      modifies blogsData
      ensures r[..] == SortNewestFirstSpec(Selected(old(blogsData[..]), CurrentFilters()))
      ensures !FiltersActive(CurrentFilters()) ==> r == blogsData
      ensures FiltersActive(CurrentFilters()) ==> fresh(r) && blogsData[..] == old(blogsData[..])
    {
      var f := CurrentFilters();
      if !FiltersActive(f) {
        InactiveFiltersShowAllNewestFirst(blogsData[..], f);
        FilterAll(blogsData[..], b => Matches(b, f));
        SortNewestFirst(blogsData);
        r := blogsData;
      } else {
        var filtered := FilterBlogs(blogsData[..], f);
        r := new Blog[|filtered|](k requires 0 <= k < |filtered| => filtered[k]);
        assert r[..] == filtered;
        SortNewestFirst(r);
      }
    }
  }
}
