/** The list the screen shows: the stored jobs narrowed by the status filter
    and then by the search box. Both steps keep the stored order. */
module Query {
  import opened Seqs
  import opened Text
  import opened Jobs

  /** `searchQuery.lowercase().trim()`: a slice of the lower-cased box with
      only whitespace outside it, which has no upper-case letter and neither
      starts nor ends with whitespace. */
  function SearchQuery(raw: string): (r: string)
    ensures exists i :: TrimmedAt(Lower(raw), r, i)
    ensures NoUpper(r)
    ensures r == [] || (!IsWhitespace(r[0]) && !IsWhitespace(r[|r| - 1]))
  {
    var lower := Lower(raw);
    TrimSlice(lower);
    Trim(lower)
  }

  /** Preparing a prepared query changes nothing. */
  lemma SearchQueryIdempotent(raw: string)
    ensures SearchQuery(SearchQuery(raw)) == SearchQuery(raw)
  {
    var q := SearchQuery(raw);
    LowerFixed(q);
    TrimNoEnds(q);
  }

  /** The search ignores the letter case of what is typed: lower-casing the
      search box first shows the same list. */
  lemma SearchIgnoresCase(jobs: seq<JobItem>, selected: string, searchQuery: string)
    ensures VisibleJobs(jobs, selected, Lower(searchQuery)) == VisibleJobs(jobs, selected, searchQuery)
  {
    LowerIdempotent(searchQuery);
  }

  /** The status filter lets `job` through: "All" lets everything through,
      any other choice only an exact match. */
  predicate StatusMatches(selected: string, job: JobItem)
  {
    selected == AllFilter || job.status == selected
  }

  /** The lower-cased title or the lower-cased company contains `query`. */
  predicate SearchMatches(job: JobItem, query: string)
  {
    Contains(Lower(job.title), query) || Contains(Lower(job.company), query)
  }

  /** `job` is on screen for this filter and this (already prepared) query. */
  predicate Shown(selected: string, query: string, job: JobItem)
  {
    StatusMatches(selected, job) && (IsBlank(query) || SearchMatches(job, query))
  }

  /** `filteredByStatus`: the list itself for "All", otherwise the entries with
      exactly that status, in list order. */
  function FilterByStatus(jobs: seq<JobItem>, selected: string): (r: seq<JobItem>)
    ensures selected == AllFilter ==> r == jobs
    ensures IsSubseq(r, jobs)
    ensures forall j :: multiset(r)[j] == if StatusMatches(selected, j) then multiset(jobs)[j] else 0
  {
    if selected == AllFilter then
      SubseqReflexive(jobs);
      jobs
    else
      Filter(jobs, (j: JobItem) => j.status == selected)
  }

  /** `visibleJobs`: the status-filtered list when the prepared query is blank,
      otherwise those of its entries whose title or company matches. The
      result is a subsequence of the stored list holding each shown entry as
      often as the list does and nothing else. */
  function VisibleJobs(jobs: seq<JobItem>, selected: string, searchQuery: string): (r: seq<JobItem>)
    ensures IsSubseq(r, jobs)
    ensures forall j :: multiset(r)[j] == if Shown(selected, SearchQuery(searchQuery), j) then multiset(jobs)[j] else 0
    ensures IsBlank(SearchQuery(searchQuery)) ==> r == FilterByStatus(jobs, selected)
  {
    var query := SearchQuery(searchQuery);
    var filtered := FilterByStatus(jobs, selected);
    if IsBlank(query) then filtered
    else
      var r := Filter(filtered, (j: JobItem) => SearchMatches(j, query));
      SubseqTransitive(r, filtered, jobs);
      r
  }

  /** The two-step computation equals a single filter by `Shown`: the visible
      list is exactly the shown entries in their stored order. */
  lemma VisibleIsFilter(jobs: seq<JobItem>, selected: string, searchQuery: string)
    ensures VisibleJobs(jobs, selected, searchQuery) == Filter(jobs, (j: JobItem) => Shown(selected, SearchQuery(searchQuery), j))
  {
    var query := SearchQuery(searchQuery);
    FilterUnique(jobs, (j: JobItem) => Shown(selected, query, j), VisibleJobs(jobs, selected, searchQuery));
  }

  /** With "All" and a query that is blank once trimmed, every stored entry is
      shown, in stored order. */
  lemma ShowAll(jobs: seq<JobItem>, searchQuery: string)
    requires Trim(Lower(searchQuery)) == []
    ensures VisibleJobs(jobs, AllFilter, searchQuery) == jobs
  {
  }

  /** A query that is blank before trimming is blank after it. */
  lemma BlankQueryShowsFilter(jobs: seq<JobItem>, selected: string, searchQuery: string)
    requires IsBlank(searchQuery)
    ensures VisibleJobs(jobs, selected, searchQuery) == FilterByStatus(jobs, selected)
  {
    var lower := Lower(searchQuery);
    assert IsBlank(lower);
    BlankIffTrimEmpty(lower);
  }

  /** Searching the demo list for "yod" under "All" finds only the Yodeck entry:
      the match is on the lower-cased company. */
  lemma DemoSearch()
    ensures VisibleJobs(DemoJobs, AllFilter, "yod") == [DemoJobs[0]]
  {
    YodQuery();
    DemoMatches();
    assert !IsBlank("yod") by { assert !IsWhitespace("yod"[0]); }
    OnlyFirstVisible(DemoJobs, AllFilter, "yod");
  }

  /** Of three entries, when only the first is shown, the visible list is that
      one entry. */
  lemma OnlyFirstVisible(jobs: seq<JobItem>, selected: string, searchQuery: string)
    requires |jobs| == 3
    requires Shown(selected, SearchQuery(searchQuery), jobs[0])
    requires !Shown(selected, SearchQuery(searchQuery), jobs[1])
    requires !Shown(selected, SearchQuery(searchQuery), jobs[2])
    ensures VisibleJobs(jobs, selected, searchQuery) == [jobs[0]]
  {
    VisibleIsFilter(jobs, selected, searchQuery);
    FilterOnlyFirst(jobs, (j: JobItem) => Shown(selected, SearchQuery(searchQuery), j));
  }

  /** Filtering three entries of which only the first passes leaves that one. */
  lemma FilterOnlyFirst(s: seq<JobItem>, p: JobItem -> bool)
    requires |s| == 3 && p(s[0]) && !p(s[1]) && !p(s[2])
    ensures Filter(s, p) == [s[0]]
  {
  }

  lemma YodQuery()
    ensures SearchQuery("yod") == "yod"
  {
    assert Lower("yod") == "yod";
    assert TrimStart("yod") == "yod";
    assert TrimEnd("yod") == "yod";
  }

  lemma DemoMatches()
    ensures SearchMatches(DemoJobs[0], "yod")
    ensures !SearchMatches(DemoJobs[1], "yod")
    ensures !SearchMatches(DemoJobs[2], "yod")
  {
    YodeckMatches();
    DemoMisses();
  }

  lemma YodeckMatches()
    ensures SearchMatches(JobItem("Android Developer", "Yodeck", "Applied"), "yod")
  {
    assert Lower("Yodeck")[..3] == "yod";
    assert OccursAt(Lower("Yodeck"), "yod", 0);
  }

  lemma DemoMisses()
    ensures !SearchMatches(JobItem("Junior Software Engineer", "Netcompany", "Wishlist"), "yod")
    ensures !SearchMatches(JobItem("Backend Developer Intern", "Intralot", "Interview"), "yod")
  {
    NoY("Junior Software Engineer");
    NoY("Netcompany");
    NoY("Backend Developer Intern");
    NoY("Intralot");
  }

  lemma NoY(s: string)
    requires forall i :: 0 <= i && i + 3 <= |s| ==> s[i] != 'y' && s[i] != 'Y'
    ensures !Contains(Lower(s), "yod")
  {
    NoLetter(Lower(s), "yod");
  }

  /** A string in which the first letter of a non-empty `t` never starts room
      enough for `t` does not contain `t`. */
  lemma NoLetter(s: string, t: string)
    requires t != [] && forall i :: 0 <= i && i + |t| <= |s| ==> s[i] != t[0]
    ensures !Contains(s, t)
  {
    forall i: nat ensures !OccursAt(s, t, i) {
      if i + |t| <= |s| {
        assert s[i..i + |t|][0] == s[i];
      }
    }
  }
}
