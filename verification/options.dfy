/**
 What the catalogue derives from the full list besides the filtered view: the
 option lists of the three dropdowns and the two header statistics.
 */
module Options {
  import opened Text
  import opened Resources
  import opened FilterEngine

  /** `r[key] || 'Other'`: an absent or empty field is listed as "Other". */
  function Label(v: Option<string>): string
  {
    if v.Some? && v.value != "" then v.value else "Other"
  }

  /** Strictly ascending in string order, hence free of duplicates. */
  predicate StrictlySorted(s: seq<string>)
  {
    forall i, j :: 0 <= i < j < |s| ==> Less(s[i], s[j])
  }

  predicate NoDuplicates<T(==)>(s: seq<T>)
  {
    forall i, j :: 0 <= i < j < |s| ==> s[i] != s[j]
  }

  lemma StrictlySortedHasNoDuplicates(s: seq<string>)
    requires StrictlySorted(s)
    ensures NoDuplicates(s)
  {
    forall i, j | 0 <= i < j < |s|
      ensures s[i] != s[j]
    {
      LessIrreflexive(s[i]);
    }
  }

  /** Puts `x` into its place in a strictly sorted list, unless it is already there. */
  function Insert(s: seq<string>, x: string): (r: seq<string>)
    requires StrictlySorted(s)
    ensures StrictlySorted(r)
    ensures forall y :: y in r <==> y in s || y == x
  {
    if s == [] then [x]
    else if x == s[0] then s
    else if Less(x, s[0]) then
      assert forall j :: 0 < j < |s| ==> Less(x, s[j]) by {
        forall j | 0 < j < |s|
          ensures Less(x, s[j])
        {
          LessTransitive(x, s[0], s[j]);
        }
      }
      [x] + s
    else
      LessTotal(x, s[0]);
      var rest := Insert(s[1..], x);
      assert forall y :: y in rest ==> Less(s[0], y) by {
        forall y | y in rest
          ensures Less(s[0], y)
        {
          if y != x {
            var j :| 0 <= j < |s[1..]| && s[1..][j] == y;
            assert s[j + 1] == y;
          }
        }
      }
      [s[0]] + rest
  }

  /** `[...new Set(xs)].sort()`: the distinct values of `xs`, in ascending order. */
  function SortedDistinct(xs: seq<string>): (r: seq<string>)
    ensures StrictlySorted(r)
    ensures forall y :: y in r <==> y in xs
  {
    if xs == [] then []
    else Insert(SortedDistinct(xs[..|xs| - 1]), xs[|xs| - 1])
  }

  /** The label of field `f` of every resource, in list order. */
  function Labels(rs: seq<Resource>, f: Field): (ls: seq<string>)
    ensures |ls| == |rs|
    ensures forall i :: 0 <= i < |rs| ==> ls[i] == Label(Get(rs[i], f))
  {
    if rs == [] then [] else [Label(Get(rs[0], f))] + Labels(rs[1..], f)
  }

  /**
   `getOptions(key)`: the options of the dropdown for `f`, ascending and free of
   duplicates, holding exactly the labels the resources carry in that field.
   */
  function GetOptions(rs: seq<Resource>, f: Field): (opts: seq<string>)
    ensures StrictlySorted(opts)
    ensures NoDuplicates(opts)
    ensures forall o :: o in opts <==> exists i :: 0 <= i < |rs| && Label(Get(rs[i], f)) == o
  {
    var ls := Labels(rs, f);
    var opts := SortedDistinct(ls);
    StrictlySortedHasNoDuplicates(opts);
    assert forall o :: o in ls <==> exists i :: 0 <= i < |rs| && Label(Get(rs[i], f)) == o by {
      forall o | o in ls
        ensures exists i :: 0 <= i < |rs| && Label(Get(rs[i], f)) == o
      {
        var i :| 0 <= i < |ls| && ls[i] == o;
      }
    }
    opts
  }

  /** The option a resource is listed under is always offered. */
  lemma EveryResourceHasItsOption(rs: seq<Resource>, f: Field, i: int)
    requires 0 <= i < |rs|
    ensures Label(Get(rs[i], f)) in GetOptions(rs, f)
  {
  }

  /** When every resource carries the same label there is exactly one option. */
  lemma SingleOption(rs: seq<Resource>, f: Field, x: string)
    requires rs != []
    requires forall i :: 0 <= i < |rs| ==> Label(Get(rs[i], f)) == x
    ensures GetOptions(rs, f) == [x]
  {
    var opts := GetOptions(rs, f);
    assert x in opts;
    assert forall o :: o in opts ==> o == x;
    DistinctCard(opts);
    assert (set y | y in opts) == {x};
  }

  /**
   Choosing the "Other" option selects only records whose field is literally
   "Other": a record listed under "Other" because its category is missing is
   not shown by it.
   */
  lemma OtherOptionSkipsMissingCategory(r: Resource)
    requires r.category == None
    ensures GetOptions([r], CategoryField) == ["Other"]
    ensures Filter([r], NoQuery.(category := "Other")) == []
  {
    SingleOption([r], CategoryField, "Other");
  }

  /** The distinct category values, an absent category counted as a value of its own. */
  function CategoriesOf(rs: seq<Resource>): set<Option<string>>
  {
    set i | 0 <= i < |rs| :: rs[i].category
  }

  /**
   `updateStats`: the resource count and the number of distinct category values
   (`new Set(allResources.map(r => r.Category)).size`).
   */
  method UpdateStats(rs: seq<Resource>) returns (resources: nat, categories: nat)
    ensures resources == |rs|
    ensures categories == |CategoriesOf(rs)|
    ensures categories <= |rs|
    ensures rs != [] ==> categories >= 1
  {
    var seen: set<Option<string>> := {};
    var k := 0;
    while k < |rs|
      invariant 0 <= k <= |rs|
      invariant seen == set i | 0 <= i < k :: rs[i].category
      invariant |seen| <= k
      invariant k > 0 ==> |seen| >= 1
    {
      assert (set i | 0 <= i < k + 1 :: rs[i].category) == seen + {rs[k].category};
      seen := seen + {rs[k].category};
      k := k + 1;
    }
    resources := |rs|;
    categories := |seen|;
  }

  lemma DistinctCard(s: seq<string>)
    requires NoDuplicates(s)
    ensures |set x | x in s| == |s|
  {
    if s != [] {
      var t := s[1..];
      DistinctCard(t);
      assert (set x | x in s) == (set x | x in t) + {s[0]};
      assert s[0] !in (set x | x in t);
    }
  }

  lemma {:induction false} ValuesCard(a: set<Option<string>>)
    requires forall v :: v in a ==> v.Some?
    ensures |set v | v in a :: v.value| == |a|
  {
    if a != {} {
      var v :| v in a;
      var rest := a - {v};
      ValuesCard(rest);
      assert (set u | u in a :: u.value) == (set u | u in rest :: u.value) + {v.value};
      assert v.value !in (set u | u in rest :: u.value);
    }
  }

  /**
   When every resource has a non-empty category, the category statistic equals the
   number of category options; otherwise the two may differ (see
   `MissingCategoryCountedSeparately`).
   */
  lemma CategoryStatMatchesOptions(rs: seq<Resource>)
    requires forall i :: 0 <= i < |rs| ==> rs[i].category.Some? && rs[i].category.value != ""
    ensures |CategoriesOf(rs)| == |GetOptions(rs, CategoryField)|
  {
    var opts := GetOptions(rs, CategoryField);
    var cats := CategoriesOf(rs);
    DistinctCard(opts);
    ValuesCard(cats);
    assert (set x | x in opts) == (set v | v in cats :: v.value) by {
      forall x | x in opts
        ensures x in (set v | v in cats :: v.value)
      {
        var i :| 0 <= i < |rs| && Label(Get(rs[i], CategoryField)) == x;
        assert rs[i].category in cats;
      }
      forall v | v in cats
        ensures v.value in opts
      {
        var i :| 0 <= i < |rs| && rs[i].category == v;
        assert Label(Get(rs[i], CategoryField)) == v.value;
      }
    }
  }

  /**
   The statistic does not substitute "Other": a missing category and a literal
   "Other" count as two categories but share one dropdown option.
   */
  lemma MissingCategoryCountedSeparately(a: Resource, b: Resource)
    requires a.category == None && b.category == Some("Other")
    ensures |CategoriesOf([a, b])| == 2
    ensures GetOptions([a, b], CategoryField) == ["Other"]
  {
    var rs := [a, b];
    assert rs[0].category == None && rs[1].category == Some("Other");
    assert CategoriesOf(rs) == {None, Some("Other")};
    SingleOption(rs, CategoryField, "Other");
  }
}
