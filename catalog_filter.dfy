/**
 * The catalogue filter of `src/app/page.tsx`: a search term and four optional filters,
 * each applied only when truthy, narrowing the listing array without reordering it.
 */
module CatalogFilter {
  import opened Wrappers
  import opened Text
  import opened Seqs
  import opened Listing

  /** The page's filter state; `kind` is the source's `type`. */
  datatype Filters = Filters(
    kind: Option<string>,
    minPrice: Option<int>,
    maxPrice: Option<int>,
    bedrooms: Option<int>)

  const NoFilters := Filters(None, None, None, None)

  /** The search predicate: the lower-cased term occurs in the lower-cased title, location or description. */
  predicate MatchesText(p: Property, term: string)
    ensures term == "" ==> MatchesText(p, term)
  {
    var t := Lower(term);
    Contains(Lower(p.title), t) || Contains(Lower(p.location), t) || Contains(Lower(p.description), t)
  }

  // The five steps of the filter, each as the predicate its `.filter` call applies.

  function SearchStep(term: string): Property -> bool {
    (p: Property) => MatchesText(p, term)
  }

  function TypeStep(kind: string): Property -> bool {
    (p: Property) => p.kind == kind
  }

  function MinPriceStep(bound: int): Property -> bool {
    (p: Property) => p.price >= bound
  }

  function MaxPriceStep(bound: int): Property -> bool {
    (p: Property) => p.price <= bound
  }

  function BedroomsStep(bound: int): Property -> bool {
    (p: Property) => p.bedrooms >= bound
  }

  /** A listing is shown when it passes every step whose input is truthy. */
  predicate Visible(p: Property, term: string, f: Filters) {
    && (term != "" ==> MatchesText(p, term))
    && (TruthyText(f.kind) ==> p.kind == f.kind.value)
    && (TruthyNumber(f.minPrice) ==> p.price >= f.minPrice.value)
    && (TruthyNumber(f.maxPrice) ==> p.price <= f.maxPrice.value)
    && (TruthyNumber(f.bedrooms) ==> p.bedrooms >= f.bedrooms.value)
  }

  function VisibleUnder(term: string, f: Filters): Property -> bool {
    (p: Property) => Visible(p, term, f)
  }

  /** The listings the catalogue shows: the visible ones, in their original order. */
  function Shown(properties: seq<Property>, term: string, f: Filters): seq<Property> {
    Keep(properties, VisibleUnder(term, f))
  }

  /** Whether step `n` (1 to 5) of the filter runs: its input is truthy. */
  predicate StepOn(term: string, f: Filters, n: nat) {
    if n == 1 then term != ""
    else if n == 2 then TruthyText(f.kind)
    else if n == 3 then TruthyNumber(f.minPrice)
    else if n == 4 then TruthyNumber(f.maxPrice)
    else TruthyNumber(f.bedrooms)
  }

  /** The test step `n` (1 to 5) applies: search, type, minimum price, maximum price, bedrooms. */
  function StepTest(term: string, f: Filters, n: nat): Property -> bool {
    if n == 1 then SearchStep(term)
    else if n == 2 then TypeStep(f.kind.GetOr(""))
    else if n == 3 then MinPriceStep(f.minPrice.GetOr(0))
    else if n == 4 then MaxPriceStep(f.maxPrice.GetOr(0))
    else BedroomsStep(f.bedrooms.GetOr(0))
  }

  /** The listings left after the first `n` steps as the page runs them, in the source's order. */
  function Staged(properties: seq<Property>, term: string, f: Filters, n: nat): seq<Property>
    requires n <= 5
  {
    if n == 0 then properties
    else KeepIf(Staged(properties, term, f, n - 1), StepOn(term, f, n), StepTest(term, f, n))
  }

  /** A listing passes the first `n` of the five steps. */
  predicate PassesFirst(p: Property, term: string, f: Filters, n: nat) {
    && (n >= 1 && term != "" ==> MatchesText(p, term))
    && (n >= 2 && TruthyText(f.kind) ==> p.kind == f.kind.value)
    && (n >= 3 && TruthyNumber(f.minPrice) ==> p.price >= f.minPrice.value)
    && (n >= 4 && TruthyNumber(f.maxPrice) ==> p.price <= f.maxPrice.value)
    && (n >= 5 && TruthyNumber(f.bedrooms) ==> p.bedrooms >= f.bedrooms.value)
  }

  function PassesFirstUnder(term: string, f: Filters, n: nat): Property -> bool {
    (p: Property) => PassesFirst(p, term, f, n)
  }

  /** Passing the first `n` steps is passing the first `n - 1` and, when it runs, step `n`. */
  lemma PassesStep(term: string, f: Filters, n: nat)
    requires 1 <= n <= 5
    ensures forall x :: PassesFirst(x, term, f, n) ==
                        (PassesFirst(x, term, f, n - 1) && (StepOn(term, f, n) ==> StepTest(term, f, n)(x)))
  {
  }

  /** The same fact about the filter tests the steps hand to `Keep`. */
  lemma StepComposes(term: string, f: Filters, n: nat)
    requires 1 <= n <= 5
    ensures var prev, next := PassesFirstUnder(term, f, n - 1), PassesFirstUnder(term, f, n);
            forall x :: next(x) == (prev(x) && (StepOn(term, f, n) ==> StepTest(term, f, n)(x)))
  {
    var prev, next := PassesFirstUnder(term, f, n - 1), PassesFirstUnder(term, f, n);
    PassesStep(term, f, n);
    forall x ensures next(x) == (prev(x) && (StepOn(term, f, n) ==> StepTest(term, f, n)(x))) {
      assert next(x) == PassesFirst(x, term, f, n);
      assert prev(x) == PassesFirst(x, term, f, n - 1);
    }
  }

  /** The first `n` steps, run one after the other, keep exactly the listings that pass them. */
  lemma {:induction false} StagedPasses(properties: seq<Property>, term: string, f: Filters, n: nat)
    requires n <= 5
    ensures Staged(properties, term, f, n) == Keep(properties, PassesFirstUnder(term, f, n))
  {
    if n == 0 {
      KeepAll(properties, PassesFirstUnder(term, f, 0));
    } else {
      var prev, next := PassesFirstUnder(term, f, n - 1), PassesFirstUnder(term, f, n);
      var on, test := StepOn(term, f, n), StepTest(term, f, n);
      calc {
        Staged(properties, term, f, n);
        KeepIf(Staged(properties, term, f, n - 1), on, test);
        { StagedPasses(properties, term, f, n - 1); }
        KeepIf(Keep(properties, prev), on, test);
        { StepComposes(term, f, n); KeepIfStep(properties, on, prev, test, next); }
        Keep(properties, next);
      }
    }
  }

  /** Running the five steps one after the other shows exactly the visible listings, in order. */
  lemma StagedIsShown(properties: seq<Property>, term: string, f: Filters)
    ensures Staged(properties, term, f, 5) == Shown(properties, term, f)
  {
    StagedPasses(properties, term, f, 5);
    KeepAgree(properties, PassesFirstUnder(term, f, 5), VisibleUnder(term, f));
  }

  /** The shown listings are an order-preserving subsequence of all listings. */
  lemma ShownIsSubsequence(properties: seq<Property>, term: string, f: Filters)
    ensures IsSubsequence(Shown(properties, term, f), properties)
  {
    KeepIsSubsequence(properties, VisibleUnder(term, f));
  }

  /** A listing is shown exactly when it is among the listings and visible. */
  lemma ShownMembership(properties: seq<Property>, term: string, f: Filters, p: Property)
    ensures p in Shown(properties, term, f) <==> p in properties && Visible(p, term, f)
  {
    var r := Shown(properties, term, f);
    if p in r {
      var i :| 0 <= i < |r| && r[i] == p;
    }
    if p in properties && Visible(p, term, f) {
      var i :| 0 <= i < |properties| && properties[i] == p;
    }
  }

  /** With an empty term and no truthy filter every listing is shown, in order. */
  lemma NothingSetShowsAll(properties: seq<Property>, term: string, f: Filters)
    requires term == "" && !TruthyText(f.kind)
    requires !TruthyNumber(f.minPrice) && !TruthyNumber(f.maxPrice) && !TruthyNumber(f.bedrooms)
    ensures Shown(properties, term, f) == properties
  {
    KeepAll(properties, VisibleUnder(term, f));
  }

  /**
   * A bound of 0, or an empty type, filters nothing: each one alone, whatever the other
   * filters are, and all four together, shows the same listings as leaving it out.
   */
  lemma FalsyFiltersAreUnset(properties: seq<Property>, term: string, f: Filters)
    ensures Shown(properties, term, f.(minPrice := Some(0))) == Shown(properties, term, f.(minPrice := None))
    ensures Shown(properties, term, f.(maxPrice := Some(0))) == Shown(properties, term, f.(maxPrice := None))
    ensures Shown(properties, term, f.(bedrooms := Some(0))) == Shown(properties, term, f.(bedrooms := None))
    ensures Shown(properties, term, f.(kind := Some(""))) == Shown(properties, term, f.(kind := None))
    ensures Shown(properties, term, f.(minPrice := Some(0), maxPrice := Some(0), bedrooms := Some(0), kind := Some("")))
            == Shown(properties, term, f.(minPrice := None, maxPrice := None, bedrooms := None, kind := None))
  {
    KeepAgree(properties, VisibleUnder(term, f.(minPrice := Some(0))), VisibleUnder(term, f.(minPrice := None)));
    KeepAgree(properties, VisibleUnder(term, f.(maxPrice := Some(0))), VisibleUnder(term, f.(maxPrice := None)));
    KeepAgree(properties, VisibleUnder(term, f.(bedrooms := Some(0))), VisibleUnder(term, f.(bedrooms := None)));
    KeepAgree(properties, VisibleUnder(term, f.(kind := Some(""))), VisibleUnder(term, f.(kind := None)));
    var g := f.(minPrice := Some(0), maxPrice := Some(0), bedrooms := Some(0), kind := Some(""));
    var h := f.(minPrice := None, maxPrice := None, bedrooms := None, kind := None);
    KeepAgree(properties, VisibleUnder(term, g), VisibleUnder(term, h));
  }

  /** The search predicate holds exactly when the lower-cased term occurs in one of the three lower-cased fields. */
  lemma MatchesTextIff(p: Property, term: string)
    ensures MatchesText(p, term) <==>
            || (exists k :: OccursAt(Lower(p.title), Lower(term), k))
            || (exists k :: OccursAt(Lower(p.location), Lower(term), k))
            || (exists k :: OccursAt(Lower(p.description), Lower(term), k))
  {
    ContainsIff(Lower(p.title), Lower(term));
    ContainsIff(Lower(p.location), Lower(term));
    ContainsIff(Lower(p.description), Lower(term));
  }

  /** Searching ignores the case of the term: searching for its lower-cased form finds the same listings. */
  lemma SearchIgnoresCase(p: Property, term: string)
    ensures MatchesText(p, Lower(term)) == MatchesText(p, term)
  {
    LowerIdempotent(term);
  }

  /** A listing passes a minimum-price filter at its own price, and fails one a unit above unless that bound is 0. */
  lemma MinPriceBoundary(p: Property)
    ensures Visible(p, "", NoFilters.(minPrice := Some(p.price)))
    ensures p.price + 1 != 0 ==> !Visible(p, "", NoFilters.(minPrice := Some(p.price + 1)))
    ensures p.price + 1 == 0 ==> Visible(p, "", NoFilters.(minPrice := Some(p.price + 1)))
  {
  }

  /** An upper-case search term finds a listing whose title has the word in mixed case. */
  lemma SearchExample(p: Property)
    requires p.title == "Casa Azul"
    ensures MatchesText(p, "CASA")
  {
    assert Lower("CASA") == "casa";
    assert Lower("Casa Azul")[..4] == "casa";
  }

  /** An apartment at 1800 with two bedrooms passes type, maximum-price and bedroom filters, and fails a minimum of 2000. */
  lemma FilterExample(p: Property)
    requires p.kind == "Apartment" && p.price == 1800 && p.bedrooms == 2
    ensures Visible(p, "", Filters(Some("Apartment"), None, Some(2000), Some(2)))
    ensures !Visible(p, "", NoFilters.(minPrice := Some(2000)))
  {
  }
}
