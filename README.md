# Portfolio catalog queries in Dafny

This project models the query logic behind a React portfolio site's
catalog pages and proves properties about it:

- **Projects page.** It builds the category buttons and filters the
  projects by category, by "Featured Only" and by a case-insensitive
  search. It shows the results six to a page and has a "Clear Filters"
  button.
- **Blog page.** It builds the tag buttons and filters the posts by tag,
  featured flag and search. It sorts them newest first, in place, on the
  shared fixture array when no filter is active. It then splits the result
  into one featured card and a grid.
- **Project detail page.** It reads the route id with JavaScript's
  `parseInt`, finds the project with that id, and offers up to three
  related projects.
- **Blog post page.** It finds the post by its slug, splits the content
  into paragraphs at line breaks, and offers up to three related posts.
- **Skills section.** It groups the tech stack by category with a
  `reduce` that fills a dictionary in place.

The project has one module per source file:

| module | file | models |
|---|---|---|
| `Projects` | `projects.dfy` | the projects page |
| `Blogs` | `blogs.dfy` | the blog page |
| `ProjectDetail` | `project_detail.dfy` | the project detail page |
| `BlogDetail` | `blog_detail.dfy` | the blog post page |
| `Skills` | `skills.dfy` | the skills section |
| `Seqs` | `seqs.dfy` | JavaScript's array operations: `find`, `filter`, `slice`, `flat`, and `[...new Set(xs)]` |
| `Text` | `text.dfy` | JavaScript's string operations: `toLowerCase`, `includes`, `split` |

The page state that React keeps in `useState` cells becomes the fields of
a class. Each setter call becomes a method, and each `useMemo` or render
computation becomes a function or method of that class. Code that changes
state step by step stays imperative:

- the three filter passes (`FilterProjects`, `FilterBlogs`);
- the in-place sort (`SortNewestFirst`, an insertion sort on the array);
- the `reduce` loop (`GroupByCategory`).

Each of these is proved against a specification function. The properties
of that function are proved as lemmas.

Three behaviours of the code worth knowing, which the model keeps:

- **Page numbers are never clamped or reset.** `projectsPage`
  (Project.jsx:61) is set only by the pager buttons (Project.jsx:427).
  Neither a filter change nor "Clear Filters" (Project.jsx:72-77) touches
  it, and the window at Project.jsx:67-70 is not bounded by the page
  count. So after the filters narrow the results, a later page shows an
  empty grid (`Projects.StalePageShowsNothing`).
- **The shared fixture is sorted in place.** With no filter active,
  `filtered` is the imported `blogsData` array itself (Blog.jsx:46), and
  `sort` at Blog.jsx:68 reorders that array (`Blogs.BlogPage.FilteredBlogs`).
  The model proves that this re-sort does not change the listed posts
  (`Blogs.ResortedFixtureGivesSameView`). It does change the tag buttons.
  The buttons (Blog.jsx:39-42) are recomputed from the same array each time
  the page is mounted, so on a return visit they are the same buttons in
  another order (`Blogs.ResortKeepsTagButtons`,
  `Blogs.ResortCanReorderTagButtons`). The model also proves that the
  blog post page's related posts then come from the sorted order
  (`BlogDetail.RelatedAfterListSort`).
- **Blog search ignores tags.** The blog search box's placeholder
  (Blog.jsx:268) says that posts are searched "by title, content, or
  tags". The code (Blog.jsx:59-65) searches only the title, excerpt and
  content (`Blogs.TagsAreNotSearched`).

## Model

| member | source | states |
|---|---|---|
| Seqs.FindFirst | src/pages/ProjectDetail.jsx:24 | `find`: nothing exactly when no element satisfies the predicate; otherwise an element that satisfies it, with none before it that does |
| Seqs.Filter | src/pages/Project.jsx:39 | `filter`: never longer than its input; keeps exactly the elements that satisfy the predicate |
| Seqs.FilterFilter | src/pages/Project.jsx:37-53 | two filters in a row equal one filter by the conjunction of their predicates |
| Seqs.FilterCommutes | src/pages/Project.jsx:37-53 | the order of two filter passes does not matter |
| Seqs.FilterIsSubsequence | src/pages/Project.jsx:39 | a filter's result is a subsequence of its input: order kept, nothing repeated |
| Seqs.Distinct | src/pages/Project.jsx:29 | `[...new Set(xs)]`: holds exactly the elements of the input, each once |
| Seqs.DistinctFirstAppearance | src/pages/Project.jsx:29 | `Set` order is first-appearance order: an element listed earlier occurs in the input before every occurrence of a later one |
| Seqs.Flatten | src/pages/Blog.jsx:40 | `flatMap`/`flat`: an element is in the result iff it is in one of the pieces |
| Seqs.FlattenSingle | src/pages/Blog.jsx:40 | one piece flattens to itself |
| Seqs.FlattenConcat | src/pages/Blog.jsx:40 | flattening distributes over concatenation, so the pieces are laid end to end in order, with repetitions kept |
| Seqs.Slice | src/pages/Project.jsx:67-70 | `slice(start, end)` with in-range arguments is the contiguous piece `[start, min(end, n))`; a start at or past the end gives `[]` |
| Seqs.SliceIsSubsequence | src/pages/ProjectDetail.jsx:242 | a slice is a subsequence of its input |
| Text.ToLower | src/pages/Project.jsx:50-52 | `toLowerCase` keeps the length, turns each letter A to Z into its lower-case letter, and leaves every other character as it is |
| Text.ToLowerIdempotent | src/pages/Project.jsx:50-52 | lowering twice is lowering once |
| Text.ToLowerConcat | src/pages/Project.jsx:50-52 | lowering distributes over concatenation |
| Text.IncludesPrefix | src/pages/Project.jsx:50-52 | a string that includes `a + b` includes `a` |
| Text.Split | src/pages/BlogDetail.jsx:162 | `split(sep)` always gives at least one piece; its count, pieces and round trip are stated by the next four rows |
| Text.SplitCount | src/pages/BlogDetail.jsx:162 | `split(sep)` gives one more piece than there are separators |
| Text.SplitPiecesFree | src/pages/BlogDetail.jsx:162 | no piece contains the separator |
| Text.JoinSplit | src/pages/BlogDetail.jsx:162 | joining the pieces with the separator gives back the string |
| Text.SplitJoin | src/pages/BlogDetail.jsx:162 | splitting a join of separator-free pieces gives back the pieces |
| Projects.Categories | src/pages/Project.jsx:28-31 | the category buttons: "All" first, then every category of the fixture, each once; no other category |
| Projects.CategoriesFirstAppearance | src/pages/Project.jsx:29 | the buttons after "All" are in order of the categories' first appearance in the fixture |
| Projects.FilterProjects | src/pages/Project.jsx:34-57 | the three conditional filter passes give the single filter by all active conditions |
| Projects.FilteredExactly | src/pages/Project.jsx:37-53 | a project is listed iff it is in the fixture, has the selected category (unless "All"), is featured (if "Featured Only"), and matches the search (if the term is non-empty) |
| Projects.FilteredIsSubsequence | src/pages/Project.jsx:34-57 | the results are in fixture order, none repeated |
| Projects.ClearButtonShownIffChanged | src/pages/Project.jsx:369 | "Clear Filters" is shown iff the filters differ from the initial ones |
| Projects.InactiveFiltersShowAll | src/pages/Project.jsx:34-57 | with no filter active, every project is listed in fixture order |
| Projects.SearchIgnoresCase | src/pages/Project.jsx:48-53 | two terms that lower to the same string select the same projects |
| Projects.TypingNarrowsResults | src/pages/Project.jsx:48-53 | typing more characters gives a subsequence of the previous results |
| Projects.CategoryButtonNeverEmpty | src/pages/Project.jsx:38-40 | every category button other than "All" selects at least one project |
| Projects.TotalPages | src/pages/Project.jsx:63-65 | `ceil(n / 6)`: the smallest page count whose pages hold n items |
| Projects.PageWindow | src/pages/Project.jsx:67-70 | the page window holds at most six items, all from the list; its exact contents are stated by the next row |
| Projects.PageWindowContents | src/pages/Project.jsx:67-70 | page p holds `min(6, max(0, n - 6(p-1)))` items: the ones that start at offset `6(p-1)` |
| Projects.PageWindowEmptyIffPastEnd | src/pages/Project.jsx:63-70 | a page is empty iff its number is past the last page |
| Projects.PagesCoverResults | src/pages/Project.jsx:63-70 | pages 1 to the last, laid end to end, are exactly the results |
| Projects.StalePageShowsNothing | src/pages/Project.jsx:61-70 | the page number is not reset: a page of 2 or more over results that fit on one page shows nothing, and the pager has only one page |
| Projects.ProjectsPage.constructor | src/pages/Project.jsx:23-25 | starts at category "All", featured off, empty search, page 1 |
| Projects.ProjectsPage.SelectCategory | src/pages/Project.jsx:333 | sets the category only; the other filters and the page are unchanged |
| Projects.ProjectsPage.ToggleFeatured | src/pages/Project.jsx:353 | flips "Featured Only" only |
| Projects.ProjectsPage.SetSearchTerm | src/pages/Project.jsx:299 | sets the search term only (the clear button at line 308 sets it to empty) |
| Projects.ProjectsPage.SelectPage | src/pages/Project.jsx:427 | sets the page only |
| Projects.ProjectsPage.ClearFilters | src/pages/Project.jsx:72-77 | restores the initial filters and keeps the page; a second call changes nothing |
| Projects.ProjectsPage.PaginatedProjects | src/pages/Project.jsx:63-70 | the grid is the current page of the filtered projects: at most six, in fixture order; also returns the page count |
| Blogs.Tags | src/pages/Blog.jsx:39-42 | the tag buttons: "All" first, then every tag of every post, each once; no other tag |
| Blogs.AllTags | src/pages/Blog.jsx:40 | a tag is in the flattened list iff some post carries it |
| Blogs.AllTagsConcat | src/pages/Blog.jsx:40 | the flattened list is the posts' tag lists laid end to end, post after post |
| Blogs.TagsFirstAppearance | src/pages/Blog.jsx:40-41 | the buttons after "All" are in order of first appearance in the flattened tag list |
| Blogs.FilterBlogs | src/pages/Blog.jsx:45-65 | the three conditional filter passes give the single filter by all active conditions |
| Blogs.SelectedExactly | src/pages/Blog.jsx:48-65 | a post is selected iff it is in the fixture, carries the selected tag (unless "All"), is featured (if "Featured Only"), and matches the search (if the term is non-empty) |
| Blogs.TagsAreNotSearched | src/pages/Blog.jsx:59-65 | for every post, tag list and term: changing the tags changes neither whether the post is a search hit nor whether it passes the filters with the tag filter off |
| Blogs.TagOnlyMentionIsMissed | src/pages/Blog.jsx:59-65 | a post that mentions "React" only as a tag is not found by the term "React" |
| Blogs.SearchIgnoresCase | src/pages/Blog.jsx:59-65 | two terms that lower to the same string select the same posts |
| Blogs.SortIsPermutation | src/pages/Blog.jsx:68 | the sort only reorders: same multiset of posts |
| Blogs.SortIsNewestFirst | src/pages/Blog.jsx:68 | the sort leaves no post before a newer one |
| Blogs.SortIsStable | src/pages/Blog.jsx:68 | posts with equal dates keep their relative order |
| Blogs.SortOfSorted | src/pages/Blog.jsx:68 | a list already newest first is left as it is |
| Blogs.SortIdempotent | src/pages/Blog.jsx:68 | sorting twice is sorting once |
| Blogs.FilterSortCommute | src/pages/Blog.jsx:45-68 | filtering and then sorting equals sorting and then filtering |
| Blogs.MakeRoom | src/pages/Blog.jsx:68 | the posts after position i that are newer than the one being placed move one place left, leaving a gap in front of the first post that is not newer; nothing else moves |
| Blogs.InsertStep | src/pages/Blog.jsx:68 | one insertion step puts `a[i]` into the sorted suffix and leaves the prefix alone |
| Blogs.SortNewestFirst | src/pages/Blog.jsx:68 | the in-place sort leaves the array equal to the reference stable newest-first sort of its old contents |
| Blogs.InactiveFiltersShowAllNewestFirst | src/pages/Blog.jsx:45-69 | with no filter active, every post is listed, newest first |
| Blogs.ClearButtonShownIffChanged | src/pages/Blog.jsx:340 | "Clear Filters" is shown iff the filters differ from the initial ones |
| Blogs.ResortedFixtureGivesSameView | src/pages/Blog.jsx:46-68 | once the fixture has been sorted in place, later filtering and sorting give the same list as working from the original order |
| Blogs.ResortKeepsTagButtons | src/pages/Blog.jsx:39-46 | the tag buttons computed from the sorted fixture are the same buttons as before, as many, with "All" first |
| Blogs.ResortCanReorderTagButtons | src/pages/Blog.jsx:39-46 | an older post tagged "x" before a newer one tagged "y" gives buttons "All", "x", "y", and after the in-place sort "All", "y", "x" |
| Blogs.FeaturedSection | src/pages/Blog.jsx:394 | at most one post, and a featured one that is shown |
| Blogs.Grid | src/pages/Blog.jsx:403 | exactly the non-featured posts that are shown |
| Blogs.FeaturedSectionIsFirstFeatured | src/pages/Blog.jsx:394 | the "Featured Article" section is empty iff nothing shown is featured, and otherwise holds exactly the first featured post |
| Blogs.GridIsNonFeatured | src/pages/Blog.jsx:403 | the grid holds exactly the non-featured posts, in order |
| Blogs.HiddenFeaturedCount | src/pages/Blog.jsx:374-403 | every featured post after the first is shown nowhere: featured count minus one posts go missing |
| Blogs.BlogPage.constructor | src/pages/Blog.jsx:34-36 | starts at tag "All", featured off, empty search |
| Blogs.BlogPage.SelectTag | src/pages/Blog.jsx:304 | sets the tag only (also the "Popular Topics" buttons at line 472) |
| Blogs.BlogPage.ToggleFeatured | src/pages/Blog.jsx:324 | flips "Featured Only" only |
| Blogs.BlogPage.SetSearchTerm | src/pages/Blog.jsx:270 | sets the search term only (the clear button at line 279 sets it to empty) |
| Blogs.BlogPage.ClearFilters | src/pages/Blog.jsx:72-76 | restores the initial filters; a second call changes nothing |
| Blogs.BlogPage.FilteredBlogs | src/pages/Blog.jsx:45-69 | the selected posts, newest first. With no filter active, the result is the fixture array itself, sorted in place. Otherwise it is a fresh array and the fixture is untouched |
| ProjectDetail.TrimStart | src/pages/ProjectDetail.jsx:24 | `parseInt` first drops leading white space: a suffix of the input, all of the dropped characters white space, and the next character not white space |
| ProjectDetail.DigitRun | src/pages/ProjectDetail.jsx:24 | the longest leading run of digits in the radix |
| ProjectDetail.ReadSigned | src/pages/ProjectDetail.jsx:24 | what `parseInt` reads after the white space: nothing is NaN, a negative result needs a leading minus, and a number needs a decimal digit |
| ProjectDetail.ParseInt | src/pages/ProjectDetail.jsx:24 | `parseInt`: a blank id is NaN, a negative result needs a leading minus after the white space, and a number needs a decimal digit in the id; the rows below state the white space, sign, hex and decimal readings |
| ProjectDetail.ParseIntSkipsSpace | src/pages/ProjectDetail.jsx:24 | any run of leading white space changes nothing: `" 3"` reads as `"3"` |
| ProjectDetail.ParseIntPlus | src/pages/ProjectDetail.jsx:24 | one leading `+` is accepted and changes nothing when no further sign or white space follows it |
| ProjectDetail.ParseIntMinus | src/pages/ProjectDetail.jsx:24 | one leading `-` negates what the rest reads as, and NaN stays NaN |
| ProjectDetail.ParseIntHex | src/pages/ProjectDetail.jsx:24 | after `0x` or `0X` the longest run of hex digits is read in base 16; with no hex digit after the prefix the id is NaN |
| ProjectDetail.ParseIntOfDecimal | src/pages/ProjectDetail.jsx:24 | `parseInt` reads the decimal form of any integer back as that integer, also when a character follows it that is neither a decimal digit nor `x`/`X` (after `0`, an `x` would start a hex number) |
| ProjectDetail.ParseIntDecimal | src/pages/ProjectDetail.jsx:24 | an id starting with a decimal digit, and not with `0x`/`0X`, reads as its longest leading decimal run in base 10, whatever follows: leading zeros are read, and `12x` reads as 12 |
| ProjectDetail.ParseIntSignThenJunk | src/pages/ProjectDetail.jsx:24 | a sign not followed by a decimal digit gives NaN: `+ 3`, `+-3` and `-x` |
| ProjectDetail.NonNumericIdIsNaN | src/pages/ProjectDetail.jsx:24 | a route id with no digit after the white space (and no sign) reads as NaN |
| ProjectDetail.LookupProject | src/pages/ProjectDetail.jsx:24 | for every route id, the lookup finds the first fixture project whose id equals the parsed id, and finds nothing iff no project has that id |
| ProjectDetail.LinkFindsProject | src/pages/ProjectDetail.jsx:24 | a project's own link finds the first project with its id; with unique ids, the project itself |
| ProjectDetail.RelatedProjects | src/pages/ProjectDetail.jsx:240-242 | at most three projects, each another fixture project of the same category; order and count are stated by the next row |
| ProjectDetail.RelatedProjectsAreRelated | src/pages/ProjectDetail.jsx:240-242 | related projects: the first `min(3, q)` of the other projects of the same category, in fixture order, never the current one |
| ProjectDetail.ProjectDetailPage.constructor | src/pages/ProjectDetail.jsx:20-21 | starts with no project and loading |
| ProjectDetail.ProjectDetailPage.OnId | src/pages/ProjectDetail.jsx:23-27 | the effect stores the lookup result for the route id and ends loading |
| ProjectDetail.ProjectDetailPage.View | src/pages/ProjectDetail.jsx:29-53 | a spinner iff loading; "Project Not Found" iff loaded and nothing found; otherwise the found project and its related projects |
| ProjectDetail.NotFoundIffNoSuchId | src/pages/ProjectDetail.jsx:23-53 | once the effect has run, the page's view is "Project Not Found" iff no project has the parsed id, and otherwise shows a fixture project carrying that id |
| BlogDetail.LookupBlog | src/pages/BlogDetail.jsx:27 | the lookup finds the first post with the slug, and finds nothing iff no post has it |
| BlogDetail.LinkFindsPost | src/pages/BlogDetail.jsx:27 | a post's own link finds the first post with its slug; with unique slugs, the post itself |
| BlogDetail.SharesTagSymmetric | src/pages/BlogDetail.jsx:32 | sharing a tag is symmetric |
| BlogDetail.RelatedBlogs | src/pages/BlogDetail.jsx:31-33 | at most three posts, each another fixture post sharing a tag with the current one; order and count are stated by the next row |
| BlogDetail.RelatedBlogsAreRelated | src/pages/BlogDetail.jsx:30-35 | related posts: the first `min(3, q)` of the other posts that share a tag with the current one, in fixture order, never the current one |
| BlogDetail.RelatedIsMutual | src/pages/BlogDetail.jsx:32 | a post offered under another qualifies to have that other offered under it |
| BlogDetail.RelatedAfterListSort | src/pages/BlogDetail.jsx:31-33 | after the blog page has sorted the shared fixture, the related posts are a prefix of the qualifying posts sorted newest first |
| BlogDetail.Paragraphs | src/pages/BlogDetail.jsx:162 | one paragraph per line: newline count plus one pieces, none containing a newline, which joined by newlines give back the content |
| BlogDetail.BlogDetailPage.constructor | src/pages/BlogDetail.jsx:22-24 | starts with no post, loading, and no related posts |
| BlogDetail.BlogDetailPage.OnSlug | src/pages/BlogDetail.jsx:26-38 | the effect stores the lookup result and ends loading; the related posts are recomputed when a post is found, and left as they were otherwise |
| BlogDetail.BlogDetailPage.View | src/pages/BlogDetail.jsx:53-77 | a spinner iff loading; "Blog Post Not Found" iff loaded and nothing found; otherwise the stored post, its content split into paragraphs that join back to it, and the stored related posts |
| BlogDetail.NotFoundIffNoSuchSlug | src/pages/BlogDetail.jsx:26-77 | once the effect has run, the page's view is "Blog Post Not Found" iff no post has the slug, and otherwise shows a fixture post with that slug and its related posts |
| Skills.GroupByCategory | src/components/Skills.jsx:226-232 | the reduce creates a key per category in first-appearance order, and under each key exactly that category's skills, in order |
| Skills.ReduceStep | src/components/Skills.jsx:227-230 | one step of the reduce, creating the list if missing and then pushing, keeps the dictionary equal to the grouping of the skills seen so far |
| Skills.SkillInExactlyOneGroup | src/components/Skills.jsx:226-232 | every skill's category is a key, and the skill is in that group and in no other |
| Skills.GroupKeepsOrder | src/components/Skills.jsx:230 | a group keeps the skills' relative order |
| Skills.GroupsAreNonEmpty | src/components/Skills.jsx:227-230 | a category is a key iff its group is non-empty |
| Skills.GroupSizesSum | src/components/Skills.jsx:226-232 | the group sizes add up to the number of skills |
| Skills.KeysInFirstAppearanceOrder | src/components/Skills.jsx:265 | sections are rendered in order of each category's first skill |
| Skills.TechStackSections | src/components/Skills.jsx:25-223 | the stack as written gives the sections Frontend, Backend, Database, Tools with 5, 3, 3 and 4 skills |

## Left out

- Rendering is left out. JSX markup, styling, animations, icons, the theme
  context and navigation are presentation. `src/contexts` is not part of
  this model.
- React's scheduling is left out. Setters take effect at once in the
  model; batching, re-render order and `useMemo` caching are not modelled.
  The effects are methods called with the new route parameter.
- The JSON fixtures are left out. Projects and posts are arbitrary
  sequences, and every property holds for any fixture. Only the tech
  stack, which is written in `Skills.jsx`, is a constant. Its icons and
  colours are dropped.
- Post dates are integers that grow with time. Parsing date
  strings with `new Date`, and invalid dates (whose comparator result is
  NaN), are not modelled.
- Text.ToLower: lowers only the ASCII letters A to Z. JavaScript's full
  Unicode case mapping is not modelled, because it is a large table.
- ProjectDetail.ParseInt: integers are exact. The rounding of
  magnitudes above 2^53 to a double is not modelled. `IsSpace` lists the
  Unicode white space and line terminators that JavaScript's grammar
  names.
- Skills.GroupByCategory: `Object.entries` lists keys in creation order,
  except that keys which look like array indices ("0", "1", …) come first
  in numeric order. Those keys, and category names inherited from
  `Object.prototype` such as "constructor", are not modelled. No category
  in the stack is either.
- Blogs.SortNewestFirst: the engine's own sort algorithm is replaced by an
  insertion sort. `Array.prototype.sort` is stable, and a stable sort's
  output is unique, so the result is the same.
- The rest of the site is left out as not part of the catalog queries:
  the contact form, the counter and scroll widgets, the share button (it
  uses the browser clipboard), the other pages' static content, and the
  "Popular Topics" list's own rendering (only its buttons' effect,
  `SelectTag`, is modelled).
