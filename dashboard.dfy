/** frontend/src/pages/Dashboard.jsx (the version between the conflict markers): the
    question list's search, filter and sort, its pagination, the page-number strip,
    and the answer panel of the inline detail page. */
module Dashboard {
  import opened Seqs
  import opened Text

  /** A question card, in the shape of the page's sample records. */
  datatype Listing = Listing(
    id: int,
    title: string,
    description: string,
    username: string,
    answers: int,
    tags: seq<string>,
    timeAgo: string)

  const QuestionsPerPage := 3


  /** The hard-coded questions the page lists. */
  const AllQuestions: seq<Listing> := [
    Listing(1, "How to join 2 columns in a data set to make a separate column in SQL",
      "I do not know the code for it as I am a beginner. As an example what I need to do is like there is a column 1 containing First name and column 2 consisting of Last name. I want a column to contain...",
      "User Name", 5, ["sql", "database"], "2 hours ago"),
    Listing(2, "React useState hook not updating state immediately",
      "I'm trying to update state using useState hook but the state doesn't seem to update immediately. When I console.log the state right after setState, it shows the old value...",
      "Developer123", 3, ["react", "javascript"], "4 hours ago"),
    Listing(3, "Python list comprehension with multiple conditions",
      "I need to create a list comprehension that filters based on multiple conditions. I have a list of dictionaries and want to extract specific values based on certain criteria...",
      "PythonLearner", 2, ["python", "list-comprehension"], "6 hours ago"),
    Listing(4, "CSS Grid vs Flexbox - when to use which?",
      "I'm confused about when to use CSS Grid versus Flexbox. Both seem to solve similar layout problems. Can someone explain the key differences and use cases...",
      "CSSNewbie", 8, ["css", "flexbox", "grid"], "8 hours ago"),
    Listing(5, "Docker container not starting after build",
      "My Docker container builds successfully but fails to start. The error message is quite cryptic and I'm not sure how to debug this issue...",
      "DevOpsGuru", 1, ["docker", "containers"], "10 hours ago"),
    Listing(6, "MongoDB aggregation pipeline optimization",
      "I have a complex aggregation pipeline that's running very slowly on large datasets. Looking for ways to optimize performance...",
      "DataExpert", 4, ["mongodb", "aggregation"], "12 hours ago"),
    Listing(7, "JavaScript async/await vs Promises",
      "What are the practical differences between using async/await and traditional Promise chains? When should I use one over the other...",
      "JSCoder", 6, ["javascript", "async", "promises"], "14 hours ago"),
    Listing(8, "Git merge conflicts resolution strategies",
      "I frequently encounter merge conflicts in my team projects. What are the best practices for resolving and preventing merge conflicts...",
      "GitMaster", 3, ["git", "merge-conflicts"], "16 hours ago")
  ]

  // ---------------------------------------------------------------------------
  // Search and filters

  /** The search test: the lowercased term occurs in the lowercased title, description
      or some tag. */
  predicate MatchesSearch(q: Listing, term: string): (b: bool)
    ensures term == "" ==> b
  {
    var t := Lower(term);
    || Includes(Lower(q.title), t)
    || Includes(Lower(q.description), t)
    || exists k | 0 <= k < |q.tags| :: Includes(Lower(q.tags[k]), t)
  }

  /** The search ignores the case of the term. */
  lemma SearchIgnoresCase(q: Listing, term: string)
    ensures MatchesSearch(q, Lower(term)) == MatchesSearch(q, term)
  {
    LowerIdempotent(term);
  }

  function Matcher(term: string): Listing -> bool {
    q => MatchesSearch(q, term)
  }

  /** The search step: an empty term keeps the list, any other term filters it. */
  function Search(all: seq<Listing>, term: string): (r: seq<Listing>)
    ensures term == "" ==> r == all
    ensures forall k :: 0 <= k < |r| ==> r[k] in all && (term != "" ==> MatchesSearch(r[k], term))
    ensures forall k :: 0 <= k < |all| && MatchesSearch(all[k], term) ==> all[k] in r
  {
    if term == "" then all else Filter(all, Matcher(term))
  }

  /** A non-empty term keeps exactly the matching questions, each as often as it was
      there, and the kept ones in their original order. */
  lemma SearchKeepsExactlyMatches(all: seq<Listing>, more: seq<Listing>, term: string, q: Listing)
    requires term != ""
    ensures multiset(Search(all, term))[q] == if MatchesSearch(q, term) then multiset(all)[q] else 0
    ensures Search(all + more, term) == Search(all, term) + Search(more, term)
  {
    FilterMultiset(all, Matcher(term), q);
    FilterAppend(all, more, Matcher(term));
  }

  predicate IsUnanswered(q: Listing) {
    q.answers == 0
  }

  /** "Unanswered" keeps exactly the questions with no answers, in order. */
  lemma UnansweredKeepsExactlyUnanswered(qs: seq<Listing>, more: seq<Listing>, q: Listing)
    ensures multiset(Filter(qs, IsUnanswered))[q] == if q.answers == 0 then multiset(qs)[q] else 0
    ensures Filter(qs + more, IsUnanswered) == Filter(qs, IsUnanswered) + Filter(more, IsUnanswered)
    ensures Filter(Filter(qs, IsUnanswered), IsUnanswered) == Filter(qs, IsUnanswered)
  {
    FilterMultiset(qs, IsUnanswered, q);
    FilterAppend(qs, more, IsUnanswered);
    FilterAll(Filter(qs, IsUnanswered), IsUnanswered);
  }

  /** Answers count non-increasing from front to back. */
  predicate SortedByAnswers(s: seq<Listing>) {
    forall i, j :: 0 <= i < j < |s| ==> s[i].answers >= s[j].answers
  }

  /** The comparator of "Active" and "Frequent". */
  function ByAnswers(a: Listing, b: Listing): (r: int)
    ensures r > 0 <==> a.answers < b.answers
    ensures r == 0 <==> a.answers == b.answers
  {
    b.answers - a.answers
  }

  /** The comparator of "Votes" (it doubles the answer counts; there is no vote field). */
  function ByDoubledAnswers(a: Listing, b: Listing): (r: int)
    ensures r > 0 <==> a.answers < b.answers
    ensures r == 0 <==> a.answers == b.answers
  {
    b.answers * 2 - a.answers * 2
  }

  /** A comparator that puts `a` after `b` exactly when `a` has fewer answers. */
  ghost predicate PutsMoreAnswersFirst(cmp: (Listing, Listing) -> int) {
    forall a, b :: cmp(a, b) > 0 <==> a.answers < b.answers
  }

  lemma ComparatorsPutMoreAnswersFirst()
    ensures PutsMoreAnswersFirst(ByAnswers)
    ensures PutsMoreAnswersFirst(ByDoubledAnswers)
  {
  }

  /** Non-increasing answer counts on positions `[0, hi)` of `a`. */
  ghost predicate SortedPrefix(a: array<Listing>, hi: int)
    reads a
  {
    forall p, q :: 0 <= p < q < hi && q < a.Length ==> a[p].answers >= a[q].answers
  }

  /** Exchanging two entries keeps the same elements. */
  lemma SwapKeepsMultiset(s: seq<Listing>, x: int, y: int)
    requires 0 <= x < |s| && 0 <= y < |s|
    ensures multiset(s[x := s[y]][y := s[x]]) == multiset(s)
  {
  }

  /** While `a[j]` is being moved left within `[0, i]`: the other entries of the prefix
      are in order and `a[j]` has more answers than everything after it up to `i`. */
  ghost predicate Inserting(a: array<Listing>, i: int, j: int)
    reads a
    requires 0 <= j <= i < a.Length
  {
    && (forall p, q :: 0 <= p < q <= i && p != j && q != j ==> a[p].answers >= a[q].answers)
    && (forall q :: j < q <= i ==> a[j].answers > a[q].answers)
  }

  /** One swap of the insertion step: `a[j]` passes its left neighbour, which has fewer
      answers, and the entries are exchanged. */
  method SwapLeft(a: array<Listing>, i: int, j: int)
    requires 0 < j <= i < a.Length && Inserting(a, i, j)
    requires a[j - 1].answers < a[j].answers
    modifies a
    ensures Inserting(a, i, j - 1)
    ensures a[..] == old(a[..])[j - 1 := old(a[j])][j := old(a[j - 1])]
    ensures multiset(a[..]) == multiset(old(a[..]))
  {
    ghost var s := a[..];
    a[j - 1], a[j] := a[j], a[j - 1];
    assert a[..] == s[j - 1 := s[j]][j := s[j - 1]];
    SwapKeepsMultiset(s, j - 1, j);
  }

  /** One step of the insertion sort: moves `a[i]` left past every element with fewer
      answers, so that the first `i + 1` elements are sorted. */
  method InsertAt(a: array<Listing>, i: int, cmp: (Listing, Listing) -> int)
    requires PutsMoreAnswersFirst(cmp)
    requires 0 <= i < a.Length && SortedPrefix(a, i)
    modifies a
    ensures SortedPrefix(a, i + 1)
    ensures forall k :: i < k < a.Length ==> a[k] == old(a[k])
    ensures multiset(a[..]) == multiset(old(a[..]))
  {
    var j := i;
    while j > 0 && cmp(a[j - 1], a[j]) > 0
      invariant 0 <= j <= i
      invariant Inserting(a, i, j)
      invariant forall k :: i < k < a.Length ==> a[k] == old(a[k])
      invariant multiset(a[..]) == multiset(old(a[..]))
    {
      SwapLeft(a, i, j);
      j := j - 1;
    }
  }

  /** `a.sort(cmp)`, as an insertion sort by adjacent swaps. */
  method SortInPlace(a: array<Listing>, cmp: (Listing, Listing) -> int)
    requires PutsMoreAnswersFirst(cmp)
    modifies a
    ensures SortedByAnswers(a[..])
    ensures multiset(a[..]) == multiset(old(a[..]))
  {
    var i := 0;
    while i < a.Length
      invariant 0 <= i <= a.Length
      invariant SortedPrefix(a, i)
      invariant multiset(a[..]) == multiset(old(a[..]))
    {
      InsertAt(a, i, cmp);
      i := i + 1;
    }
  }

  /** A sorted copy: the page sorts `filtered`, which is already a fresh array. */
  method SortedCopy(s: seq<Listing>, cmp: (Listing, Listing) -> int) returns (r: seq<Listing>)
    requires PutsMoreAnswersFirst(cmp)
    ensures SortedByAnswers(r)
    ensures multiset(r) == multiset(s)
  {
    var a := new Listing[|s|](k requires 0 <= k < |s| => s[k]);
    assert a[..] == s;
    SortInPlace(a, cmp);
    r := a[..];
  }

  /** The number of questions `filteredQuestions` yields (sorting keeps the count). */
  function FilteredCount(all: seq<Listing>, term: string, filter: string): nat {
    if filter == "Unanswered" then |Filter(Search(all, term), IsUnanswered)|
    else |Search(all, term)|
  }

  /** `filteredQuestions`: search first, then the selected filter. "Newest" keeps the
      order, "Unanswered" filters, the other three sort by answers, non-increasing; a
      name outside the options falls through the `switch` and keeps the order. */
  method FilteredQuestions(all: seq<Listing>, searchTerm: string, selectedFilter: string)
    returns (r: seq<Listing>)
    ensures selectedFilter == "Unanswered" ==> r == Filter(Search(all, searchTerm), IsUnanswered)
    ensures selectedFilter in {"Active", "Votes", "Frequent"} ==>
      SortedByAnswers(r) && multiset(r) == multiset(Search(all, searchTerm))
    ensures selectedFilter !in {"Unanswered", "Active", "Votes", "Frequent"} ==>
      r == Search(all, searchTerm)
    ensures |r| == FilteredCount(all, searchTerm, selectedFilter)
  {
    var filtered := Search(all, searchTerm);
    ComparatorsPutMoreAnswersFirst();
    if selectedFilter == "Newest" {
    } else if selectedFilter == "Unanswered" {
      filtered := Filter(filtered, IsUnanswered);
    } else if selectedFilter == "Active" {
      filtered := SortedCopy(filtered, ByAnswers);
    } else if selectedFilter == "Votes" {
      filtered := SortedCopy(filtered, ByDoubledAnswers);
    } else if selectedFilter == "Frequent" {
      filtered := SortedCopy(filtered, ByAnswers);
    }
    r := filtered;
    assert |multiset(r)| == |r|;
  }

  // ---------------------------------------------------------------------------
  // Pagination

  /** `Math.ceil(n / questionsPerPage)`. */
  function TotalPages(n: nat): (t: nat)
    ensures n <= t * QuestionsPerPage
    ensures t == 0 || (t - 1) * QuestionsPerPage < n
  {
    (n + QuestionsPerPage - 1) / QuestionsPerPage
  }

  /** Where `Array.prototype.slice` starts or stops for index argument `i`: negative
      arguments count back from the end, and all are clamped to `[0, len]`. */
  function SliceBound(i: int, len: nat): (k: nat)
    ensures 0 <= i <= len ==> k == i
    ensures i > len ==> k == len
    ensures i < 0 && 0 <= len + i ==> k == len + i
    ensures len + i < 0 ==> k == 0
  {
    if i < 0 then (if len + i < 0 then 0 else len + i)
    else if i > len then len
    else i
  }

  /** `s.slice(start, end)`: the elements from the start bound up to the end bound, or
      none when the end bound is not past the start bound. */
  function Slice<T>(s: seq<T>, start: int, end: int): (r: seq<T>)
    ensures |r| == if SliceBound(start, |s|) < SliceBound(end, |s|)
                   then SliceBound(end, |s|) - SliceBound(start, |s|) else 0
    ensures forall k :: 0 <= k < |r| ==> r[k] == s[SliceBound(start, |s|) + k]
  {
    var b := SliceBound(start, |s|);
    var e := SliceBound(end, |s|);
    if b < e then s[b..e] else []
  }

  /** `currentQuestions`: the slice of page `currentPage`. */
  function PageOf<T>(s: seq<T>, currentPage: int): (r: seq<T>)
    ensures |r| <= QuestionsPerPage
    ensures currentPage <= 0 && |s| <= QuestionsPerPage ==> r == []
  {
    Slice(s, (currentPage - 1) * QuestionsPerPage, currentPage * QuestionsPerPage)
  }

  /** Page p >= 1 shows elements (p-1)*3 up to p*3 of the list, so at most three, and it
      is non-empty exactly when p is at most `totalPages`. */
  lemma PageShowsItsThree<T>(s: seq<T>, p: int)
    requires p >= 1
    ensures |PageOf(s, p)| <= QuestionsPerPage
    ensures forall k :: 0 <= k < |PageOf(s, p)| ==> PageOf(s, p)[k] == s[(p - 1) * QuestionsPerPage + k]
    ensures |PageOf(s, p)| == if p * QuestionsPerPage <= |s| then QuestionsPerPage
                              else if (p - 1) * QuestionsPerPage < |s| then |s| - (p - 1) * QuestionsPerPage
                              else 0
    ensures PageOf(s, p) != [] <==> p <= TotalPages(|s|)
  {
  }

  /** Every element of the list is on exactly one page: element i is entry i % 3 of
      page i / 3 + 1, and that page is within `totalPages`. */
  lemma EveryItemOnItsPage<T>(s: seq<T>, i: int)
    requires 0 <= i < |s|
    ensures 1 <= i / QuestionsPerPage + 1 <= TotalPages(|s|)
    ensures i % QuestionsPerPage < |PageOf(s, i / QuestionsPerPage + 1)|
    ensures PageOf(s, i / QuestionsPerPage + 1)[i % QuestionsPerPage] == s[i]
  {
    PageShowsItsThree(s, i / QuestionsPerPage + 1);
  }

  /** An entry of the page-number strip: a page button or a "..." gap. */
  datatype PageItem = Page(n: int) | Ellipsis

  /** What the strip promises: page numbers within `[1, totalPages]`, strictly
      increasing, consecutive wherever two buttons are neighbours, and a gap only between
      two buttons that skip at least one page; it starts at page 1 and ends at the last. */
  ghost predicate WellFormedStrip(pages: seq<PageItem>, totalPages: int) {
    && (pages != [] ==> pages[0] == Page(1) && pages[|pages| - 1] == Page(totalPages))
    && (forall k :: 0 <= k < |pages| && pages[k].Page? ==> 1 <= pages[k].n <= totalPages)
    && (forall i, j :: 0 <= i < j < |pages| && pages[i].Page? && pages[j].Page? ==> pages[i].n < pages[j].n)
    && (forall k :: 0 <= k < |pages| - 1 && pages[k].Page? && pages[k + 1].Page? ==>
          pages[k + 1].n == pages[k].n + 1)
    && (forall k :: 0 <= k < |pages| && pages[k].Ellipsis? ==>
          && 0 < k < |pages| - 1 && pages[k - 1].Page? && pages[k + 1].Page?
          && pages[k + 1].n > pages[k - 1].n + 1)
  }

  /** Buttons for pages lo..hi. */
  ghost function Run(lo: int, hi: int): (r: seq<PageItem>)
    ensures |r| == if hi < lo then 0 else hi - lo + 1
    ensures forall k :: 0 <= k < |r| ==> r[k] == Page(lo + k)
  {
    if hi < lo then [] else seq(hi - lo + 1, k requires 0 <= k < hi - lo + 1 => Page(lo + k))
  }

  lemma RunIsWellFormed(totalPages: int)
    ensures WellFormedStrip(Run(1, totalPages), totalPages)
  {
  }

  lemma HeadStripIsWellFormed(totalPages: int)
    requires totalPages > 7
    ensures WellFormedStrip([Page(1), Page(2), Page(3), Page(4), Page(5), Ellipsis, Page(totalPages)], totalPages)
  {
  }

  lemma TailStripIsWellFormed(totalPages: int)
    requires totalPages > 7
    ensures WellFormedStrip([Page(1), Ellipsis, Page(totalPages - 4), Page(totalPages - 3),
                             Page(totalPages - 2), Page(totalPages - 1), Page(totalPages)], totalPages)
  {
  }

  lemma MiddleStripIsWellFormed(totalPages: int, currentPage: int)
    requires 4 < currentPage < totalPages - 3
    ensures WellFormedStrip([Page(1), Ellipsis, Page(currentPage - 1), Page(currentPage),
                             Page(currentPage + 1), Ellipsis, Page(totalPages)], totalPages)
  {
  }

  /** `renderPagination`: all pages when there are at most seven, otherwise seven
      entries: the first five and the last, the first and the last five, or the first,
      the current page with its neighbours, and the last, with "..." for what is cut. */
  method RenderPagination(totalPages: int, currentPage: int) returns (pages: seq<PageItem>)
    ensures totalPages <= 7 ==> pages == Run(1, totalPages)
    ensures totalPages > 7 ==> |pages| == 7
    ensures totalPages > 7 && currentPage <= 4 ==>
      pages == [Page(1), Page(2), Page(3), Page(4), Page(5), Ellipsis, Page(totalPages)]
    ensures totalPages > 7 && 4 < currentPage && totalPages - 3 <= currentPage ==>
      pages == [Page(1), Ellipsis, Page(totalPages - 4), Page(totalPages - 3),
                Page(totalPages - 2), Page(totalPages - 1), Page(totalPages)]
    ensures totalPages > 7 && 4 < currentPage < totalPages - 3 ==>
      pages == [Page(1), Ellipsis, Page(currentPage - 1), Page(currentPage),
                Page(currentPage + 1), Ellipsis, Page(totalPages)]
    ensures WellFormedStrip(pages, totalPages)
    ensures 1 <= currentPage <= totalPages ==> Page(currentPage) in pages
  {
    pages := [];
    var maxVisiblePages := 7;
    if totalPages <= maxVisiblePages {
      var i := 1;
      while i <= totalPages
        invariant 1 <= i <= (if totalPages < 1 then 1 else totalPages + 1)
        invariant pages == Run(1, i - 1)
      {
        pages := pages + [Page(i)];
        i := i + 1;
      }
      RunIsWellFormed(totalPages);
      if 1 <= currentPage <= totalPages {
        assert pages[currentPage - 1] == Page(currentPage);
      }
    } else if currentPage <= 4 {
      var i := 1;
      while i <= 5
        invariant 1 <= i <= 6
        invariant pages == Run(1, i - 1)
      {
        pages := pages + [Page(i)];
        i := i + 1;
      }
      pages := pages + [Ellipsis];
      pages := pages + [Page(totalPages)];
      assert pages == [Page(1), Page(2), Page(3), Page(4), Page(5), Ellipsis, Page(totalPages)];
      HeadStripIsWellFormed(totalPages);
      if 1 <= currentPage {
        assert pages[currentPage - 1] == Page(currentPage);
      }
    } else if currentPage >= totalPages - 3 {
      pages := pages + [Page(1)];
      pages := pages + [Ellipsis];
      var i := totalPages - 4;
      while i <= totalPages
        invariant totalPages - 4 <= i <= totalPages + 1
        invariant pages == [Page(1), Ellipsis] + Run(totalPages - 4, i - 1)
      {
        pages := pages + [Page(i)];
        i := i + 1;
      }
      assert pages == [Page(1), Ellipsis, Page(totalPages - 4), Page(totalPages - 3),
                       Page(totalPages - 2), Page(totalPages - 1), Page(totalPages)];
      TailStripIsWellFormed(totalPages);
      if currentPage <= totalPages {
        assert pages[currentPage - totalPages + 6] == Page(currentPage);
      }
    } else {
      pages := pages + [Page(1)];
      pages := pages + [Ellipsis];
      var i := currentPage - 1;
      while i <= currentPage + 1
        invariant currentPage - 1 <= i <= currentPage + 2
        invariant pages == [Page(1), Ellipsis] + Run(currentPage - 1, i - 1)
      {
        pages := pages + [Page(i)];
        i := i + 1;
      }
      pages := pages + [Ellipsis];
      pages := pages + [Page(totalPages)];
      assert pages == [Page(1), Ellipsis, Page(currentPage - 1), Page(currentPage),
                       Page(currentPage + 1), Ellipsis, Page(totalPages)];
      MiddleStripIsWellFormed(totalPages, currentPage);
      assert pages[3] == Page(currentPage);
    }
  }

  // ---------------------------------------------------------------------------
  // Page state

  /** The list view's state. */
  datatype ListState = ListState(
    searchTerm: string,
    currentPage: int,
    selectedFilter: string,
    showFilterDropdown: bool)

  const InitialListState := ListState("", 1, "Newest", false)

  /** The list view starts on page 1 of the Newest order with no search, which is in
      range whatever the list holds. */
  lemma InitialListStateInRange()
    ensures PageInRange(InitialListState)
    ensures InitialListState.currentPage == 1 && InitialListState.searchTerm == ""
  {
  }

  /** `totalPages` for the state's search and filter over the sample questions. */
  function StateTotalPages(st: ListState): nat {
    TotalPages(FilteredCount(AllQuestions, st.searchTerm, st.selectedFilter))
  }

  /** The page shown is a page that exists, or page 1 when the list is empty. */
  ghost predicate PageInRange(st: ListState) {
    1 <= st.currentPage <= (if StateTotalPages(st) == 0 then 1 else StateTotalPages(st))
  }

  /** `handleFilterChange`: new filter, dropdown closed, back to page 1. */
  function HandleFilterChange(st: ListState, filter: string): (r: ListState)
    ensures r.currentPage == 1 && r.selectedFilter == filter && !r.showFilterDropdown
    ensures r.searchTerm == st.searchTerm
    ensures PageInRange(r)
  {
    st.(selectedFilter := filter, showFilterDropdown := false, currentPage := 1)
  }

  /** `handleSearch`: new term, back to page 1. */
  function HandleSearch(st: ListState, term: string): (r: ListState)
    ensures r.currentPage == 1 && r.searchTerm == term
    ensures r.selectedFilter == st.selectedFilter && r.showFilterDropdown == st.showFilterDropdown
    ensures PageInRange(r)
  {
    st.(searchTerm := term, currentPage := 1)
  }

  /** The "previous" button: `Math.max(1, currentPage - 1)`. */
  function PrevPage(currentPage: int): (r: int)
    ensures r >= 1 && r >= currentPage - 1
    ensures r == 1 || r == currentPage - 1
  {
    if currentPage - 1 < 1 then 1 else currentPage - 1
  }

  /** The "next" button: `Math.min(totalPages, currentPage + 1)`. */
  function NextPage(currentPage: int, totalPages: int): (r: int)
    ensures r <= totalPages && r <= currentPage + 1
    ensures r == totalPages || r == currentPage + 1
  {
    if totalPages < currentPage + 1 then totalPages else currentPage + 1
  }

  /** From a page in `[1, totalPages]`, "previous" and "next" move by one and stop at the
      first and the last page. */
  lemma PrevNextClamp(currentPage: int, totalPages: int)
    requires 1 <= currentPage <= totalPages
    ensures 1 <= PrevPage(currentPage) <= totalPages && 1 <= NextPage(currentPage, totalPages) <= totalPages
    ensures PrevPage(currentPage) == if currentPage == 1 then 1 else currentPage - 1
    ensures NextPage(currentPage, totalPages) == if currentPage == totalPages then totalPages else currentPage + 1
  {
  }

  /** `handlePageChange`, as the page's three kinds of buttons call it. */
  datatype PageClick = Prev | Next | Number(item: PageItem)

  /** The page a click leads to, from `currentPage` out of `totalPages`; a gap leads
      nowhere. */
  function ClickedPage(currentPage: int, totalPages: int, click: PageClick): (r: int)
    ensures click.Number? && click.item.Page? ==> r == click.item.n
    ensures click == Number(Ellipsis) ==> r == currentPage
    ensures 1 <= currentPage <= totalPages && (click.Number? && click.item.Page? ==> 1 <= click.item.n <= totalPages)
            ==> 1 <= r <= totalPages
  {
    match click
    case Prev => PrevPage(currentPage)
    case Next => NextPage(currentPage, totalPages)
    case Number(item) => if item.Page? then item.n else currentPage
  }

  /** A click changes only the page; from a page in range, and with a button whose page
      is in range (as every button of a well-formed strip is), the new page is in range. */
  function HandlePageClick(st: ListState, click: PageClick): (r: ListState)
    ensures r.searchTerm == st.searchTerm && r.selectedFilter == st.selectedFilter
    ensures r.showFilterDropdown == st.showFilterDropdown
    ensures PageInRange(st) && StateTotalPages(st) > 1
            && (click.Number? && click.item.Page? ==> 1 <= click.item.n <= StateTotalPages(st))
            ==> PageInRange(r)
  {
    st.(currentPage := ClickedPage(st.currentPage, StateTotalPages(st), click))
  }

  /** Page buttons are shown only when there is more than one page; a click on any of
      them, with an entry taken from a well-formed strip, leads to a page in range. */
  lemma PageClickStaysInRange(currentPage: int, totalPages: int, click: PageClick, strip: seq<PageItem>)
    requires 1 <= currentPage <= totalPages
    requires WellFormedStrip(strip, totalPages)
    requires click.Number? ==> click.item in strip
    ensures 1 <= ClickedPage(currentPage, totalPages, click) <= totalPages
    ensures click == Number(Ellipsis) ==> ClickedPage(currentPage, totalPages, click) == currentPage
  {
    if click.Number? && click.item.Page? {
      var k :| 0 <= k < |strip| && strip[k] == click.item;
    }
  }

  // ---------------------------------------------------------------------------
  // The inline detail page's answer panel

  /** An answer as the inline detail page keeps it. */
  datatype LocalAnswer = LocalAnswer(
    id: int,
    content: string,
    author: string,
    votes: int,
    accepted: bool,
    timeAgo: string)

  /** The panel's state: the answers and the text in the answer box. */
  datatype AnswerPanel = AnswerPanel(answers: seq<LocalAnswer>, newAnswer: string)

  const InitialAnswerPanel := AnswerPanel([
    LocalAnswer(1, "The || Operator.\nThe + Operator.\nThe CONCAT Function.", "SQLExpert", 12, true, "2 hours ago"),
    LocalAnswer(2, "Details about different approaches to joining columns in SQL...", "DataMaster", 5, false, "4 hours ago")
  ], "")

  /** `handleSubmitAnswer`: a blank answer is ignored; otherwise it is appended with id
      `answers.length + 1` and no votes, and the box is cleared. */
  function SubmitLocalAnswer(p: AnswerPanel): (r: AnswerPanel)
    ensures IsBlank(p.newAnswer) ==> r == p
    ensures !IsBlank(p.newAnswer) ==>
      && r.answers == p.answers + [LocalAnswer(|p.answers| + 1, p.newAnswer, "CurrentUser", 0, false, "just now")]
      && r.newAnswer == ""
  {
    if Trim(p.newAnswer) != "" then
      var answer := LocalAnswer(|p.answers| + 1, p.newAnswer, "CurrentUser", 0, false, "just now");
      AnswerPanel(p.answers + [answer], "")
    else p
  }

  /** `handleVote`: the answer with the given id moves by one, up for "up" and down for
      anything else; the others are copied. */
  function VoteLocal(answers: seq<LocalAnswer>, answerId: int, direction: string): (r: seq<LocalAnswer>)
    ensures |r| == |answers|
    ensures forall k :: 0 <= k < |r| ==> r[k].id == answers[k].id && r[k].content == answers[k].content
  {
    seq(|answers|, k requires 0 <= k < |answers| =>
      if answers[k].id == answerId
      then answers[k].(votes := answers[k].votes + (if direction == "up" then 1 else -1))
      else answers[k])
  }

  /** The ids 1, 2, 3, ... in list order, as the initial answers have them. */
  ghost predicate NumberedFromOne(answers: seq<LocalAnswer>) {
    forall k :: 0 <= k < |answers| ==> answers[k].id == k + 1
  }

  /** The panel starts numbered from one with an empty box. */
  lemma InitialPanelIsNumbered()
    ensures NumberedFromOne(InitialAnswerPanel.answers)
    ensures InitialAnswerPanel.newAnswer == ""
  {
  }

  /** Submitting and voting keep the ids numbered from one, so `length + 1` is always a
      fresh id. */
  lemma PanelKeepsNumbering(p: AnswerPanel, answerId: int, direction: string)
    requires NumberedFromOne(p.answers)
    ensures NumberedFromOne(SubmitLocalAnswer(p).answers)
    ensures NumberedFromOne(VoteLocal(p.answers, answerId, direction))
  {
  }

  /** With numbered ids, a vote changes exactly the answer at position `answerId - 1`, by
      +1 for "up" and -1 otherwise, and nothing else. */
  lemma VoteLocalChangesOne(answers: seq<LocalAnswer>, answerId: int, direction: string)
    requires NumberedFromOne(answers)
    ensures 1 <= answerId <= |answers| ==>
      VoteLocal(answers, answerId, direction)
        == answers[answerId - 1 := answers[answerId - 1].(votes := answers[answerId - 1].votes + (if direction == "up" then 1 else -1))]
    ensures !(1 <= answerId <= |answers|) ==> VoteLocal(answers, answerId, direction) == answers
  {
    var r := VoteLocal(answers, answerId, direction);
    if 1 <= answerId <= |answers| {
      var expected := answers[answerId - 1 := answers[answerId - 1].(votes := answers[answerId - 1].votes + (if direction == "up" then 1 else -1))];
      assert forall k :: 0 <= k < |r| ==> r[k] == expected[k];
    } else {
      assert forall k :: 0 <= k < |r| ==> r[k] == answers[k];
    }
  }
}
