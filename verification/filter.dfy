/**
 The filter engine shared by both catalogue scripts: a search term and three
 dropdown selectors, the per-record predicate, and the stable filter that
 recomputes the filtered view from the full list.
 */
module FilterEngine {
  import opened Text
  import opened Resources

  /**
   The filter state. `search` is stored already lower-cased; each selector holds
   the chosen dropdown value, where "" (the default option) means "any".
   */
  datatype Query = Query(search: string, category: string, kind: string, access: string)

  /** The state at start-up and after the clear action. */
  const NoQuery := Query("", "", "", "")

  function Selector(q: Query, f: Field): string
  {
    match f
    case CategoryField => q.category
    case TypeField => q.kind
    case AccessField => q.access
  }

  /** A present field whose lower-cased text contains the term; an absent field never matches. */
  predicate FieldHas(v: Option<string>, term: string)
  {
    v.Some? && Contains(Lower(v.value), term)
  }

  /** The fields the search box looks at, in the order the scripts test them. */
  function SearchedFields(r: Resource): seq<Option<string>>
  {
    [r.title, r.description, r.category]
  }

  predicate SearchMatch(r: Resource, term: string)
  {
    term == "" || FieldHas(r.title, term) || FieldHas(r.description, term) || FieldHas(r.category, term)
  }

  /** A selector accepts a value when it is empty or equal to it, case-sensitively. */
  predicate Selects(selector: string, v: Option<string>)
  {
    selector == "" || v == Some(selector)
  }

  predicate Matches(r: Resource, q: Query)
  {
    && SearchMatch(r, q.search)
    && Selects(q.category, r.category)
    && Selects(q.kind, r.kind)
    && Selects(q.access, r.access)
  }

  /** `allResources.filter(...)`: the records that match, in their original order. */
  function Filter(rs: seq<Resource>, q: Query): (r: seq<Resource>)
    ensures |r| <= |rs|
    ensures forall x :: x in r ==> x in rs && Matches(x, q)
  {
    if rs == [] then []
    else (if Matches(rs[0], q) then [rs[0]] else []) + Filter(rs[1..], q)
  }

  /** `xs` is obtained from `ys` by deleting elements, without reordering the rest. */
  predicate IsSubsequence<T(==)>(xs: seq<T>, ys: seq<T>)
    decreases |ys|
  {
    if xs == [] then true
    else if ys == [] then false
    else (xs[0] == ys[0] && IsSubsequence(xs[1..], ys[1..])) || IsSubsequence(xs, ys[1..])
  }

  /** The filtered view is an order-preserving subsequence of the full list. */
  lemma {:induction false} FilterIsSubsequence(rs: seq<Resource>, q: Query)
    ensures IsSubsequence(Filter(rs, q), rs)
  {
    if rs != [] {
      FilterIsSubsequence(rs[1..], q);
      var f := Filter(rs, q);
      if Matches(rs[0], q) {
        assert f[0] == rs[0] && f[1..] == Filter(rs[1..], q);
      } else {
        assert f == Filter(rs[1..], q);
      }
    }
  }

  /**
   Each record occurs in the filtered view exactly as often as in the full list
   when it matches, and not at all when it does not.
   */
  lemma {:induction false} FilterCounts(rs: seq<Resource>, q: Query)
    ensures forall x :: multiset(Filter(rs, q))[x] == if Matches(x, q) then multiset(rs)[x] else 0
  {
    if rs != [] {
      FilterCounts(rs[1..], q);
      assert rs == [rs[0]] + rs[1..];
      assert multiset(rs) == multiset{rs[0]} + multiset(rs[1..]);
    }
  }

  /** A record is in the filtered view iff it is in the full list and satisfies all four conditions. */
  lemma FilterMembership(rs: seq<Resource>, q: Query)
    ensures forall x :: x in Filter(rs, q) <==> x in rs && Matches(x, q)
  {
    FilterCounts(rs, q);
    forall x | x in rs && Matches(x, q)
      ensures x in Filter(rs, q)
    {
      assert multiset(Filter(rs, q))[x] == multiset(rs)[x] > 0;
    }
  }

  /** When every record matches, the filter gives back the whole list. */
  lemma {:induction false} FilterKeepsAllMatching(rs: seq<Resource>, q: Query)
    requires forall i :: 0 <= i < |rs| ==> Matches(rs[i], q)
    ensures Filter(rs, q) == rs
  {
    if rs != [] {
      FilterKeepsAllMatching(rs[1..], q);
      assert rs == [rs[0]] + rs[1..];
    }
  }

  /** When no record matches, the filtered view is empty. */
  lemma {:induction false} FilterEmptyWhenNothingMatches(rs: seq<Resource>, q: Query)
    requires forall i :: 0 <= i < |rs| ==> !Matches(rs[i], q)
    ensures Filter(rs, q) == []
  {
    if rs != [] {
      FilterEmptyWhenNothingMatches(rs[1..], q);
    }
  }

  /** The filter gives back the whole list exactly when every record of it matches. */
  lemma FilterIsAllIffAllMatch(rs: seq<Resource>, q: Query)
    ensures Filter(rs, q) == rs <==> forall i :: 0 <= i < |rs| ==> Matches(rs[i], q)
  {
    if forall i :: 0 <= i < |rs| ==> Matches(rs[i], q) {
      FilterKeepsAllMatching(rs, q);
    } else {
      var i :| 0 <= i < |rs| && !Matches(rs[i], q);
      assert rs[i] in rs;
    }
  }

  /** An empty search with every selector empty shows the full list. */
  lemma NoQueryShowsAll(rs: seq<Resource>)
    ensures Filter(rs, NoQuery) == rs
  {
    FilterKeepsAllMatching(rs, NoQuery);
  }

  /** Filtering the filtered view again changes nothing. */
  lemma FilterIdempotent(rs: seq<Resource>, q: Query)
    ensures Filter(Filter(rs, q), q) == Filter(rs, q)
  {
    var f := Filter(rs, q);
    assert forall i :: 0 <= i < |f| ==> f[i] in f;
    FilterKeepsAllMatching(f, q);
  }

  lemma FieldHasIffOccurs(v: Option<string>, term: string)
    requires v.Some?
    ensures FieldHas(v, term) <==> exists i :: OccursAt(Lower(v.value), term, i)
  {
    ContainsIffOccurs(Lower(v.value), term);
    assert FieldHas(v, term) == Contains(Lower(v.value), term);
    assert Contains(Lower(v.value), term) <==> exists i :: OccursAt(Lower(v.value), term, i);
  }

  /**
   A non-empty term matches a record iff it occurs, at some position, in the
   lower-cased text of a present title, short description or category.
   */
  lemma SearchMatchMeaning(r: Resource, term: string)
    requires term != ""
    ensures SearchMatch(r, term) <==>
      exists k, i :: 0 <= k < |SearchedFields(r)| && SearchedFields(r)[k].Some?
                     && OccursAt(Lower(SearchedFields(r)[k].value), term, i)
  {
    var fs := SearchedFields(r);
    if SearchMatch(r, term) {
      var k := if FieldHas(r.title, term) then 0 else if FieldHas(r.description, term) then 1 else 2;
      assert fs[k].Some? && FieldHas(fs[k], term);
      FieldHasIffOccurs(fs[k], term);
    } else {
      forall k, i | 0 <= k < |fs| && fs[k].Some?
        ensures !OccursAt(Lower(fs[k].value), term, i)
      {
        FieldHasIffOccurs(fs[k], term);
      }
    }
  }

  /** What a user action does to the filter state. */
  datatype Input =
    | SearchTyped(text: string)             // the debounced search box fires
    | Selected(field: Field, value: string) // a dropdown changes
    | Cleared                               // the clear-filters button
    | Escaped                               // Escape while the search box has focus

  function Update(q: Query, i: Input): (r: Query)
    ensures i.SearchTyped? ==> r.search == Lower(i.text) && forall f :: Selector(r, f) == Selector(q, f)
    ensures i.Selected? ==> r.search == q.search && Selector(r, i.field) == i.value
                            && forall f :: f != i.field ==> Selector(r, f) == Selector(q, f)
    ensures i.Escaped? ==> r.search == "" && forall f :: Selector(r, f) == Selector(q, f)
    ensures i.Cleared? ==> r.search == "" && forall f :: Selector(r, f) == ""
  {
    match i
    case SearchTyped(text) => q.(search := Lower(text))
    case Selected(CategoryField, v) => q.(category := v)
    case Selected(TypeField, v) => q.(kind := v)
    case Selected(AccessField, v) => q.(access := v)
    case Cleared => NoQuery
    case Escaped => q.(search := "")
  }

  /** After the clear action the filtered view is the full list again. */
  lemma ClearShowsAll(rs: seq<Resource>, q: Query)
    ensures Filter(rs, Update(q, Cleared)) == rs
  {
    NoQueryShowsAll(rs);
  }

  /** Typing a record's title, in any ASCII letter case, keeps that record's search condition satisfied. */
  lemma TypedTitleIsFound(r: Resource, q: Query, text: string)
    requires r.title.Some? && Lower(r.title.value) == Lower(text)
    ensures SearchMatch(r, Update(q, SearchTyped(text)).search)
  {
    ContainsSelf(Lower(text));
  }
}
