/**
 The unpaged catalogue (script.js) as a state machine: the same filter engine,
 every matching resource rendered at once, and no page state.
 */
module ListApp {
  import opened Text
  import opened Resources
  import opened FilterEngine

  /** `allResources`, `filteredResources` and `currentSearch`/`currentFilters`. */
  datatype State = State(all: seq<Resource>, filtered: seq<Resource>, query: Query)

  /** The state while the resource list is still being fetched. */
  const Initial := State([], [], NoQuery)

  datatype Event =
    | UserInput(input: Input)          // search, dropdown, clear or Escape: ends in `applyFilters`
    | Loaded(resources: seq<Resource>) // the fetch resolved with this list

  /** The filtered view follows the filter state. */
  predicate Consistent(s: State)
  {
    s.filtered == Filter(s.all, s.query)
  }

  /**
   The load step as the script writes it (`filteredResources = [...allResources]`):
   the filter state is kept but not applied.
   */
  function LoadAsWritten(s: State, all: seq<Resource>): (r: State)
    ensures r.all == all && r.query == s.query && r.filtered == all
    ensures s.query == NoQuery ==> r == Load(s, all)
    ensures r == Load(s, all) <==> forall i :: 0 <= i < |all| ==> Matches(all[i], s.query)
  {
    FilterIsAllIffAllMatch(all, s.query);
    s.(all := all, filtered := all)
  }

  /** The load step with the current filter state applied to the new list. */
  function Load(s: State, all: seq<Resource>): (r: State)
    ensures r.all == all && r.query == s.query && Consistent(r)
    ensures IsSubsequence(r.filtered, all)
    ensures s.query == NoQuery ==> r.filtered == all
  {
    FilterIsSubsequence(all, s.query);
    NoQueryShowsAll(all);
    s.(all := all, filtered := Filter(all, s.query))
  }

  /**
   `applyFilters` after the input has updated the filter state, or the corrected load
   (see `LoadIgnoresPendingSearch` for the load as the script writes it).
   */
  function Step(s: State, e: Event): (r: State)
    ensures Consistent(r)
    ensures IsSubsequence(r.filtered, r.all)
    ensures e.UserInput? ==> r.all == s.all && r.query == Update(s.query, e.input)
    ensures e.Loaded? ==> r.all == e.resources && r.query == s.query
  {
    match e
    case UserInput(i) =>
      var q := Update(s.query, i);
      FilterIsSubsequence(s.all, q);
      State(s.all, Filter(s.all, q), q)
    case Loaded(all) => Load(s, all)
  }

  /** One event with the load exactly as the script writes it. */
  function StepAsWritten(s: State, e: Event): (r: State)
    ensures e.UserInput? ==> r == Step(s, e)
    ensures e.Loaded? ==> r.all == e.resources && r.filtered == e.resources && r.query == s.query
  {
    match e
    case UserInput(_) => Step(s, e)
    case Loaded(all) => LoadAsWritten(s, all)
  }

  /**
   The script as written keeps the state consistent whenever no filter is set when the
   list arrives, and then agrees with the corrected step.
   */
  lemma StepAsWrittenKeepsConsistent(s: State, e: Event)
    requires e.Loaded? ==> s.query == NoQuery
    ensures Consistent(StepAsWritten(s, e))
    ensures StepAsWritten(s, e) == Step(s, e)
  {
  }

  /**
   What `renderResources` shows: the "N Found" count, whether the card grid or the
   empty-state notice is visible, and the cards in the grid.
   */
  datatype View = View(found: nat, showGrid: bool, showEmptyState: bool, cards: seq<Resource>)

  function Render(s: State): (v: View)
    ensures v.found == |s.filtered|
    ensures v.showGrid <==> s.filtered != []
    ensures v.showEmptyState <==> s.filtered == []
    ensures v.showGrid ==> v.cards == s.filtered
  {
    if |s.filtered| == 0 then View(0, false, true, [])
    else View(|s.filtered|, true, false, s.filtered)
  }

  /**
   Every card shown is a matching resource of the full list, and every matching
   resource is shown, in list order.
   */
  lemma RenderShowsAllMatches(s: State)
    requires Consistent(s)
    ensures Render(s).showGrid ==> IsSubsequence(Render(s).cards, s.all)
    ensures forall r :: r in s.all && Matches(r, s.query) ==> r in Render(s).cards
    ensures forall r :: r in Render(s).cards ==> r in s.all && Matches(r, s.query)
  {
    FilterIsSubsequence(s.all, s.query);
    FilterMembership(s.all, s.query);
  }

  /** The first load shows the whole list. */
  lemma InitialLoadShowsAll(all: seq<Resource>)
    ensures Step(Initial, Loaded(all)) == State(all, all, NoQuery)
  {
  }

  /** The clear action shows the whole list again. */
  lemma ClearShowsAll(s: State)
    ensures Step(s, UserInput(Cleared)).filtered == s.all
    ensures Render(Step(s, UserInput(Cleared))).found == |s.all|
  {
    NoQueryShowsAll(s.all);
  }

  /**
   A category selector no resource carries ("STEM" over a list without it) leaves
   the empty state: grid hidden, notice shown, count 0.
   */
  lemma UnknownCategoryShowsEmptyState(s: State)
    requires forall i :: 0 <= i < |s.all| ==> s.all[i].category != Some("STEM")
    ensures var v := Render(Step(s, UserInput(Selected(CategoryField, "STEM"))));
      v.found == 0 && !v.showGrid && v.showEmptyState
  {
    var r := Step(s, UserInput(Selected(CategoryField, "STEM")));
    FilterEmptyWhenNothingMatches(s.all, r.query);
  }

  /** A resource without any searchable text (only a link, say). */
  const LinkOnly := Resource(None, None, None, None, None, None, Some("https://example.org"))

  /**
   As written, a search typed while the list is still loading is ignored by the
   load: the view lists a resource the term does not match.
   */
  lemma LoadIgnoresPendingSearch()
    ensures var s := Step(Initial, UserInput(SearchTyped("math")));
      && !Matches(LinkOnly, s.query)
      && Render(LoadAsWritten(s, [LinkOnly])).cards == [LinkOnly]
      && !Consistent(LoadAsWritten(s, [LinkOnly]))
      && Render(Load(s, [LinkOnly])).showEmptyState
  {
    var s := Step(Initial, UserInput(SearchTyped("math")));
    assert s.query.search == Lower("math");
    assert |s.query.search| == 4;
  }
}
