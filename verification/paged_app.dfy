/**
 The paged catalogue (docs/script.js) as a state machine: the global state of the
 script, the events that change it, and what a render shows for a state.
 */
module PagedApp {
  import opened Text
  import opened Resources
  import opened FilterEngine
  import opened Pagination

  /** `allResources`, `filteredResources`, `currentSearch`/`currentFilters`, `currentPage`. */
  datatype State = State(all: seq<Resource>, filtered: seq<Resource>, query: Query, page: int)

  /** The state while the resource list is still being fetched. */
  const Initial := State([], [], NoQuery, 1)

  datatype Event =
    | UserInput(input: Input)          // search, dropdown, clear or Escape: ends in `applyFilters`
    | PageClicked(target: int)         // `changePage(target)`
    | Loaded(resources: seq<Resource>) // the fetch resolved with this list

  /** The filtered view follows the filter state and the current page is a page of it. */
  predicate Consistent(s: State)
  {
    && s.filtered == Filter(s.all, s.query)
    && 1 <= s.page <= Max(1, TotalPages(|s.filtered|))
  }

  /** `applyFilters`: back to page 1, the filtered view recomputed from the full list. */
  function ApplyFilters(s: State): (r: State)
    ensures r.page == 1 && r.all == s.all && r.query == s.query
    ensures Consistent(r)
  {
    s.(filtered := Filter(s.all, s.query), page := 1)
  }

  /**
   The load step as the script writes it (`filteredResources = [...allResources]`):
   the filter state is kept but not applied.
   */
  function LoadAsWritten(s: State, all: seq<Resource>): (r: State)
    ensures r.all == all && r.query == s.query && r.page == s.page
    ensures r.filtered == all
    ensures s.query == NoQuery ==> r == Load(s, all)
    ensures r == Load(s, all) <==> forall i :: 0 <= i < |all| ==> Matches(all[i], s.query)
  {
    FilterIsAllIffAllMatch(all, s.query);
    s.(all := all, filtered := all)
  }

  /** The load step with the current filter state applied to the new list. */
  function Load(s: State, all: seq<Resource>): (r: State)
    ensures r.all == all && r.query == s.query && r.page == s.page
    ensures r.filtered == Filter(all, s.query)
    ensures s.page == 1 ==> Consistent(r)
    ensures IsSubsequence(r.filtered, all)
    ensures s.query == NoQuery ==> r.filtered == all
  {
    FilterIsSubsequence(all, s.query);
    NoQueryShowsAll(all);
    s.(all := all, filtered := Filter(all, s.query))
  }

  /**
   One event with the corrected load (see `LoadIgnoresPendingSearch` for the load as
   the script writes it, and `StepAsWritten`).
   */
  function Step(s: State, e: Event): (r: State)
    ensures e.UserInput? ==> r.page == 1 && r.all == s.all && r.query == Update(s.query, e.input) && Consistent(r)
    ensures e.PageClicked? ==> r.page == e.target && r.all == s.all && r.filtered == s.filtered && r.query == s.query
  {
    match e
    case UserInput(i) => ApplyFilters(s.(query := Update(s.query, i)))
    case PageClicked(p) => s.(page := p)
    case Loaded(all) => Load(s, all)
  }

  /** What the page shows. `NoResults`: grid and pagination hidden, empty-state notice shown, "0 Found". */
  datatype View =
    | NoResults
    | Results(found: nat, page: int, totalPages: nat, cards: seq<Resource>, controls: Controls)

  /**
   `renderResources`, with `renderPagination` for the controls: the empty state when
   nothing is filtered; otherwise the count, the current page of cards and the bar.
   */
  function Render(s: State): (v: View)
    ensures v.NoResults? <==> s.filtered == []
    ensures v.Results? ==>
      && v.found == |s.filtered| && v.page == s.page
      && v.totalPages >= 1 && (v.totalPages - 1) * PageSize < v.found <= v.totalPages * PageSize
      && |v.cards| <= PageSize
      && (v.controls.Hidden? <==> v.totalPages == 1)
  {
    if |s.filtered| == 0 then NoResults
    else
      var total := TotalPages(|s.filtered|);
      Results(|s.filtered|, s.page, total, PageSlice(s.filtered, s.page), RenderControls(s.page, total))
  }

  /** The pagination bar of a view; there is none in the empty state. */
  function PaginationOf(v: View): Controls
  {
    if v.NoResults? then Hidden else v.controls
  }

  /**
   The events the page can actually deliver: a page click only from an enabled
   control of the rendered bar, and the load only once, while the full list is empty.
   */
  predicate Enabled(s: State, e: Event)
  {
    match e
    case UserInput(_) => true
    case PageClicked(p) => p in Targets(PaginationOf(Render(s)), TotalPages(|s.filtered|))
    case Loaded(_) => s.all == []
  }

  /**
   For a consistent state: the empty state shows exactly when nothing matches;
   otherwise the count is the filtered length, the cards are the current page's
   run of the filtered view, and the bar is hidden exactly when there is one page.
   */
  lemma RenderShowsCurrentPage(s: State)
    requires Consistent(s)
    ensures Render(s).NoResults? <==> s.filtered == []
    ensures PaginationOf(Render(s)).Hidden? <==> TotalPages(|s.filtered|) <= 1
    ensures Render(s).Results? ==>
      && Render(s).found == |s.filtered|
      && Render(s).page == s.page
      && Render(s).totalPages == TotalPages(|s.filtered|) >= 1
      && Render(s).cards == s.filtered[(s.page - 1) * PageSize .. Min(s.page * PageSize, |s.filtered|)]
      && 1 <= |Render(s).cards| <= PageSize
  {
    if s.filtered != [] {
      PageSliceInRange(s.filtered, s.page);
    }
  }

  /** Every event the page can deliver keeps the state consistent. */
  lemma StepKeepsConsistent(s: State, e: Event)
    requires Consistent(s) && Enabled(s, e)
    ensures Consistent(Step(s, e))
  {
    match e
    case UserInput(_) =>
    case PageClicked(p) =>
      var total := TotalPages(|s.filtered|);
      if total > 1 {
        ControlsStayInRange(s.page, total);
      }
    case Loaded(all) =>
  }

  /** One event with the load exactly as the script writes it. */
  function StepAsWritten(s: State, e: Event): (r: State)
    ensures !e.Loaded? ==> r == Step(s, e)
    ensures e.Loaded? ==> r.all == e.resources && r.filtered == e.resources && r.query == s.query
  {
    match e
    case Loaded(all) => LoadAsWritten(s, all)
    case _ => Step(s, e)
  }

  /**
   The script as written keeps the state consistent as long as no filter is set when
   the list arrives: only a pending filter separates it from the corrected step.
   */
  lemma StepAsWrittenKeepsConsistent(s: State, e: Event)
    requires Consistent(s) && Enabled(s, e)
    requires e.Loaded? ==> s.query == NoQuery
    ensures Consistent(StepAsWritten(s, e))
    ensures StepAsWritten(s, e) == Step(s, e)
  {
    StepKeepsConsistent(s, e);
  }

  /** A consistent state stays consistent along any run of deliverable events. */
  lemma {:induction false} RunKeepsConsistent(s: State, es: seq<Event>)
    requires Consistent(s)
    requires forall k :: 0 <= k < |es| ==> Enabled(Run(s, es[..k]), es[k])
    ensures Consistent(Run(s, es))
  {
    if es != [] {
      var init := es[..|es| - 1];
      assert forall k :: 0 <= k < |init| ==> init[..k] == es[..k];
      RunKeepsConsistent(s, init);
      assert es[..|es| - 1] == init;
      StepKeepsConsistent(Run(s, init), es[|es| - 1]);
    }
  }

  function Run(s: State, es: seq<Event>): State
  {
    if es == [] then s else Step(Run(s, es[..|es| - 1]), es[|es| - 1])
  }

  /** The first load shows the whole list on page 1. */
  lemma InitialLoadShowsAll(all: seq<Resource>)
    ensures Step(Initial, Loaded(all)) == State(all, all, NoQuery, 1)
    ensures Consistent(Step(Initial, Loaded(all)))
  {
    NoQueryShowsAll(all);
  }

  /** The clear action shows the whole list again, from page 1. */
  lemma ClearShowsAll(s: State)
    ensures Step(s, UserInput(Cleared)).filtered == s.all
    ensures Step(s, UserInput(Cleared)).page == 1
  {
    NoQueryShowsAll(s.all);
  }

  /** 120 resources and no filter: three pages, items 1-50 on the first and 101-120 on the third. */
  lemma HundredTwentyResources(all: seq<Resource>)
    requires |all| == 120
    ensures var s := Step(Initial, Loaded(all));
      && Render(s) == Results(120, 1, 3, all[..50], RenderControls(1, 3))
      && PageSlice(all, 3) == all[100..120]
  {
    InitialLoadShowsAll(all);
    PageSliceInRange(all, 1);
    PageSliceInRange(all, 3);
  }

  /** A resource whose only searchable text is the title "Science Lab". */
  const ScienceLab := Resource(Some("Science Lab"), None, None, None, None, None, None)

  lemma MathMissesScienceLab()
    ensures Lower("math") == "math"
    ensures !SearchMatch(ScienceLab, "math")
  {
    LowerOfLowerCase("math");
    LowerAvoids("Science Lab", 'm');
    var lowered := Lower("Science Lab");
    NotContainedWithoutFirstChar(lowered, "math");
  }

  /** A resource whose only searchable text is the title "Mathematics Hub". */
  const MathematicsHub := Resource(Some("Mathematics Hub"), None, None, None, None, None, None)

  /** The term "math" finds a title that starts with "Math", whatever the letter case. */
  lemma MathFindsMathematicsHub()
    ensures SearchMatch(MathematicsHub, "math")
    ensures Matches(MathematicsHub, Update(NoQuery, SearchTyped("math")))
  {
    LowerOfLowerCase("math");
    assert "Mathematics Hub"[..4] == "Math";
    LowerKeepsPrefix("Math", "Mathematics Hub");
    LowerAt("Math");
    assert Lower("Math") == "math";
  }

  /**
   As written, a search typed while the list is still loading is ignored by the
   load: the view lists a resource the search term "math" does not match, and the
   state is no longer consistent.
   */
  lemma LoadIgnoresPendingSearch()
    ensures var s := Step(Initial, UserInput(SearchTyped("math")));
      && s.query.search == "math"
      && !Matches(ScienceLab, s.query)
      && LoadAsWritten(s, [ScienceLab]).filtered == [ScienceLab]
      && !Consistent(LoadAsWritten(s, [ScienceLab]))
      && Consistent(Load(s, [ScienceLab]))
      && Load(s, [ScienceLab]).filtered == []
  {
    MathMissesScienceLab();
  }
}
