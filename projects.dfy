/** The project catalog page: the list of category buttons, the category,
    featured and search filters, the six-item page window, and the page
    state that "Clear Filters" resets. */
module Projects {
  import opened Seqs
  import opened Text

  datatype Project = Project(
    id: int,
    title: string,
    description: string,
    category: string,
    featured: bool,
    technologies: seq<string>)

  /** The category sentinel that switches the category filter off. */
  const All: string := "All"

  const ProjectsPerPage: nat := 6

  /** The three filter controls of the page. */
  datatype Filters = Filters(category: string, featuredOnly: bool, search: string)

  /** The state the page starts in, and that "Clear Filters" restores. */
  const InitialFilters: Filters := Filters(All, false, "")

  function CategoryList(projects: seq<Project>): (r: seq<string>)
    ensures |r| == |projects|
    ensures forall i :: 0 <= i < |r| ==> r[i] == projects[i].category
  {
    seq(|projects|, i requires 0 <= i < |projects| => projects[i].category)
  }

  /** `categories`: "All", then every project category once, in order of
      first appearance. */
  function Categories(projects: seq<Project>): (r: seq<string>)
    ensures |r| >= 1 && r[0] == All
    ensures forall c :: c in r[1..] <==> exists p :: p in projects && p.category == c
    ensures NoDuplicates(r[1..])
  {
    var d := Distinct(CategoryList(projects));
    assert ([All] + d)[1..] == d;
    assert forall p :: p in projects ==> p.category in CategoryList(projects);
    [All] + d
  }

  /** The category buttons after "All" come in order of first appearance. */
  lemma CategoriesFirstAppearance(projects: seq<Project>)
    ensures forall i, j, k ::
              (1 <= i < j < |Categories(projects)| && 0 <= k < |projects| &&
               projects[k].category == Categories(projects)[j]) ==>
              exists m :: 0 <= m < k && projects[m].category == Categories(projects)[i]
  {
    var cats := CategoryList(projects);
    var r := Categories(projects);
    DistinctFirstAppearance(cats);
    assert r[1..] == Distinct(cats);
    forall i, j, k | 1 <= i < j < |r| && 0 <= k < |projects| && projects[k].category == r[j]
      ensures exists m :: 0 <= m < k && projects[m].category == r[i]
    {
      assert cats[k] == Distinct(cats)[j - 1];
      assert r[i] in cats[..k];
      var m :| 0 <= m < k && cats[..k][m] == r[i];
      assert projects[m].category == r[i];
    }
  }

  /** The search predicate: the lowered term occurs in the lowered title,
      the lowered description or some lowered technology. */
  predicate SearchHit(p: Project, term: string) {
    var t := ToLower(term);
    || Includes(ToLower(p.title), t)
    || Includes(ToLower(p.description), t)
    || exists tech | tech in p.technologies :: Includes(ToLower(tech), t)
  }

  /** A project passes when it passes every active filter; an empty search
      term, like the "All" category, switches its filter off. */
  predicate Matches(p: Project, f: Filters) {
    && (f.category == All || p.category == f.category)
    && (!f.featuredOnly || p.featured)
    && (f.search == "" || SearchHit(p, f.search))
  }

  /** The reference for `filteredProjects`: one filter by the conjunction of
      the active predicates. */
  function Filtered(projects: seq<Project>, f: Filters): seq<Project> {
    Filter(projects, p => Matches(p, f))
  }

  /** `filteredProjects`: the source's three conditional passes, applied one
      after another to the fixture list; they agree with the single filter. */
  method FilterProjects(projects: seq<Project>, f: Filters) returns (filtered: seq<Project>)
    ensures filtered == Filtered(projects, f)
  {
    ghost var byCategory := (p: Project) => f.category == All || p.category == f.category;
    ghost var byFeatured := (p: Project) => byCategory(p) && (!f.featuredOnly || p.featured);
    ghost var bySearch := (p: Project) => byFeatured(p) && (f.search == "" || SearchHit(p, f.search));

    filtered := projects;
    if f.category != All {
      filtered := Filter(filtered, (p: Project) => p.category == f.category);
      FilterExt(projects, (p: Project) => p.category == f.category, byCategory);
    } else {
      FilterAll(projects, byCategory);
    }
    assert filtered == Filter(projects, byCategory);

    if f.featuredOnly {
      filtered := Filter(filtered, (p: Project) => p.featured);
      FilterFilter(projects, byCategory, (p: Project) => p.featured, byFeatured);
    } else {
      FilterExt(projects, byCategory, byFeatured);
    }
    assert filtered == Filter(projects, byFeatured);

    if f.search != "" {
      filtered := Filter(filtered, (p: Project) => SearchHit(p, f.search));
      FilterFilter(projects, byFeatured, (p: Project) => SearchHit(p, f.search), bySearch);
    } else {
      FilterExt(projects, byFeatured, bySearch);
    }
    FilterExt(projects, bySearch, p => Matches(p, f));
  }

  /** Every result passes every active filter, and every fixture project that
      passes them all is among the results. */
  lemma FilteredExactly(projects: seq<Project>, f: Filters, p: Project)
    ensures p in Filtered(projects, f) <==>
              && p in projects
              && (f.category != All ==> p.category == f.category)
              && (f.featuredOnly ==> p.featured)
              && (f.search != "" ==> SearchHit(p, f.search))
  {
  }

  /** The results keep fixture order and never add or repeat a project. */
  lemma FilteredIsSubsequence(projects: seq<Project>, f: Filters)
    ensures SubsequenceOf(Filtered(projects, f), projects)
  {
    FilterIsSubsequence(projects, p => Matches(p, f));
  }

  /** Whether the "Clear Filters" button is shown. */
  predicate FiltersActive(f: Filters) {
    f.category != All || f.featuredOnly || f.search != ""
  }

  /** The button is shown exactly when the filters differ from the initial ones. */
  lemma ClearButtonShownIffChanged(f: Filters)
    ensures FiltersActive(f) <==> f != InitialFilters
  {
  }

  /** With no active filter the page lists the whole fixture in fixture order. */
  lemma InactiveFiltersShowAll(projects: seq<Project>, f: Filters)
    requires !FiltersActive(f)
    ensures Filtered(projects, f) == projects
  {
    FilterAll(projects, p => Matches(p, f));
  }

  /** Search compares lowered forms only: two terms that lower to the same
      string (such as a term and its upper-cased form) select the same projects. */
  lemma SearchIgnoresCase(projects: seq<Project>, f: Filters, term: string, other: string)
    requires ToLower(term) == ToLower(other)
    ensures Filtered(projects, f.(search := term)) == Filtered(projects, f.(search := other))
  {
    var f1, f2 := f.(search := term), f.(search := other);
    assert |term| == |ToLower(term)| == |ToLower(other)| == |other|;
    assert forall p :: Matches(p, f1) == Matches(p, f2);
    FilterExt(projects, p => Matches(p, f1), p => Matches(p, f2));
    assert Filtered(projects, f1) == Filter(projects, p => Matches(p, f1));
    assert Filtered(projects, f2) == Filter(projects, p => Matches(p, f2));
  }

  /** Typing more characters into the search box can only narrow the results. */
  lemma TypingNarrowsResults(projects: seq<Project>, f: Filters, typed: string, more: string)
    ensures SubsequenceOf(Filtered(projects, f.(search := typed + more)),
                          Filtered(projects, f.(search := typed)))
  {
    forall p | Matches(p, f.(search := typed + more))
      ensures Matches(p, f.(search := typed))
    {
      if typed != "" {
        var t, m := ToLower(typed), ToLower(more);
        ToLowerConcat(typed, more);
        if Includes(ToLower(p.title), t + m) {
          IncludesPrefix(ToLower(p.title), t, m);
        } else if Includes(ToLower(p.description), t + m) {
          IncludesPrefix(ToLower(p.description), t, m);
        } else {
          var tech :| tech in p.technologies && Includes(ToLower(tech), t + m);
          IncludesPrefix(ToLower(tech), t, m);
        }
      }
    }
    var wide, narrow := f.(search := typed), f.(search := typed + more);
    NarrowerFilterIsSubsequence(projects, p => Matches(p, wide), p => Matches(p, narrow));
    assert Filtered(projects, wide) == Filter(projects, p => Matches(p, wide));
    assert Filtered(projects, narrow) == Filter(projects, p => Matches(p, narrow));
  }

  /** Every category button other than "All" selects at least one project. */
  lemma CategoryButtonNeverEmpty(projects: seq<Project>, c: string)
    requires c in Categories(projects) && c != All
    ensures Filtered(projects, Filters(c, false, "")) != []
  {
    var r := Categories(projects);
    var i :| 0 <= i < |r| && r[i] == c;
    assert c in r[1..];
    var p :| p in projects && p.category == c;
    assert Matches(p, Filters(c, false, ""));
  }

  /** `totalProjectsPages`: `Math.ceil(n / 6)`. */
  function TotalPages(n: nat): (t: nat)
    ensures n <= t * ProjectsPerPage
    ensures t == 0 || (t - 1) * ProjectsPerPage < n
  {
    (n + ProjectsPerPage - 1) / ProjectsPerPage
  }

  /** `paginatedProjects`: `slice((page - 1) * 6, page * 6)`, unclamped. */
  function PageWindow<T>(items: seq<T>, page: int): (r: seq<T>)
    ensures |r| <= ProjectsPerPage
    ensures forall x :: x in r ==> x in items
  {
    Slice(items, (page - 1) * ProjectsPerPage, page * ProjectsPerPage)
  }

  /** A page holds the six items that start at its offset, or fewer at the
      end; its length is `min(6, max(0, n - (page - 1) * 6))`. */
  lemma PageWindowContents<T>(items: seq<T>, page: int)
    requires page >= 1
    ensures var start := (page - 1) * ProjectsPerPage;
            var n := |items|;
            && |PageWindow(items, page)| ==
                 (if n <= start then 0 else if n - start < ProjectsPerPage then n - start else ProjectsPerPage)
            && (start < n ==> PageWindow(items, page) == items[start..start + |PageWindow(items, page)|])
  {
  }

  /** A page number past the last page yields an empty window; the pages
      from 1 to the last are never empty. */
  lemma PageWindowEmptyIffPastEnd<T>(items: seq<T>, page: int)
    requires page >= 1
    ensures PageWindow(items, page) == [] <==> page > TotalPages(|items|)
  {
    var t := TotalPages(|items|);
    if page <= t {
      assert (page - 1) * ProjectsPerPage <= (t - 1) * ProjectsPerPage;
    } else {
      assert t * ProjectsPerPage <= (page - 1) * ProjectsPerPage;
    }
  }

  /** The windows of pages 1..k laid end to end. */
  function PagesUpTo<T>(items: seq<T>, k: nat): seq<T> {
    if k == 0 then [] else PagesUpTo(items, k - 1) + PageWindow(items, k)
  }

  lemma {:induction false} PagesUpToPrefix<T>(items: seq<T>, k: nat)
    ensures PagesUpTo(items, k) ==
              items[..if k * ProjectsPerPage < |items| then k * ProjectsPerPage else |items|]
  {
    if k > 0 {
      PagesUpToPrefix(items, k - 1);
      var start := (k - 1) * ProjectsPerPage;
      if start < |items| {
        var end := if k * ProjectsPerPage < |items| then k * ProjectsPerPage else |items|;
        assert items[..start] + items[start..end] == items[..end];
      }
    }
  }

  /** The pages the pager offers cover the results exactly once, in order. */
  lemma PagesCoverResults<T>(items: seq<T>)
    ensures PagesUpTo(items, TotalPages(|items|)) == items
  {
    PagesUpToPrefix(items, TotalPages(|items|));
  }

  /** The page number is not reset when the filters narrow the results: a
      page past the end shows an empty grid, and when the new results fit on
      one page the pager (shown only for two or more pages) disappears too. */
  lemma StalePageShowsNothing<T>(results: seq<T>, page: int)
    requires 1 <= |results| <= ProjectsPerPage && page >= 2
    ensures PageWindow(results, page) == [] && TotalPages(|results|) == 1
  {
    PageWindowEmptyIffPastEnd(results, page);
  }

  /** The state held by the page: the three filter cells and the page number. */
  class ProjectsPage {
    const projects: seq<Project>
    var selectedCategory: string
    var showFeaturedOnly: bool
    var searchTerm: string
    var projectsPage: int

    ghost predicate Valid()
      reads this
    {
      projectsPage >= 1
    }

    function CurrentFilters(): Filters
      reads this
    {
      Filters(selectedCategory, showFeaturedOnly, searchTerm)
    }

    constructor (projects: seq<Project>)
      ensures Valid() && this.projects == projects
      ensures CurrentFilters() == InitialFilters && projectsPage == 1
    {
      this.projects := projects;
      selectedCategory := All;
      showFeaturedOnly := false;
      searchTerm := "";
      projectsPage := 1;
    }

    /** A category button. */
    method SelectCategory(category: string)
      requires Valid()
      modifies this
      ensures Valid()
      ensures CurrentFilters() == old(CurrentFilters()).(category := category)
      ensures projectsPage == old(projectsPage)
    {
      selectedCategory := category;
    }

    /** The "Featured Only" button. */
    method ToggleFeatured()
      requires Valid()
      modifies this
      ensures Valid()
      ensures CurrentFilters() == old(CurrentFilters()).(featuredOnly := !old(showFeaturedOnly))
      ensures projectsPage == old(projectsPage)
    {
      showFeaturedOnly := !showFeaturedOnly;
    }

    /** Typing in the search box, or its clear button with the empty term. */
    method SetSearchTerm(term: string)
      requires Valid()
      modifies this
      ensures Valid()
      ensures CurrentFilters() == old(CurrentFilters()).(search := term)
      ensures projectsPage == old(projectsPage)
    {
      searchTerm := term;
    }

    /** A numbered pager button. */
    method SelectPage(page: int)
      requires Valid() && page >= 1
      modifies this
      ensures Valid()
      ensures CurrentFilters() == old(CurrentFilters()) && projectsPage == page
    {
      projectsPage := page;
    }

    /** `clearFilters`: back to the initial filters; the page number stays.
        Calling it again changes nothing. */
    method ClearFilters()
      requires Valid()
      modifies this
      ensures Valid()
      ensures CurrentFilters() == InitialFilters
      ensures projectsPage == old(projectsPage)
      ensures old(CurrentFilters()) == InitialFilters ==> CurrentFilters() == old(CurrentFilters())
    {
      selectedCategory := All;
      showFeaturedOnly := false;
      searchTerm := "";
    }

    /** What the grid shows: the current page of the filtered projects. */
    method PaginatedProjects() returns (shown: seq<Project>, totalPages: nat)
      requires Valid()
      ensures shown == PageWindow(Filtered(projects, CurrentFilters()), projectsPage)
      ensures totalPages == TotalPages(|Filtered(projects, CurrentFilters())|)
      ensures |shown| <= ProjectsPerPage
      ensures SubsequenceOf(shown, projects)
    {
      var filtered := FilterProjects(projects, CurrentFilters());
      totalPages := TotalPages(|filtered|);
      shown := PageWindow(filtered, projectsPage);
      PageWindowContents(filtered, projectsPage);
      SliceIsSubsequence(filtered, (projectsPage - 1) * ProjectsPerPage, projectsPage * ProjectsPerPage);
      FilteredIsSubsequence(projects, CurrentFilters());
      SubsequenceTransitive(shown, filtered, projects);
    }
  }
}
