/** The home page's product filter: a case-insensitive search over title
    and description combined with a category choice, where "전체" ("all")
    admits every category. */
module Home {
  import opened Basics
  import opened Text

  /** The fields of a listed product the filter reads. */
  datatype Listing = Listing(id: string, title: string, description: string, category: string)

  const AllCategories: string := "전체"

  /** `includes` on lower-cased title or description. */
  predicate MatchesSearch(p: Listing, query: string)
  {
    Includes(ToLower(p.title), ToLower(query)) || Includes(ToLower(p.description), ToLower(query))
  }

  predicate MatchesCategory(p: Listing, category: string)
  {
    category == AllCategories || p.category == category
  }

  predicate Shown(p: Listing, query: string, category: string)
  {
    MatchesSearch(p, query) && MatchesCategory(p, category)
  }

  /** `filteredProducts`. */
  function FilterProducts(ps: seq<Listing>, query: string, category: string): (r: seq<Listing>)
    ensures forall p :: p in r <==> p in ps && Shown(p, query, category)
  {
    Filter(ps, (p: Listing) => Shown(p, query, category))
  }

  /** The filter keeps a product exactly when it matches both the search and
      the category, and keeps the catalogue's order. */
  lemma FilterMeaning(ps: seq<Listing>, query: string, category: string)
    ensures forall p :: p in FilterProducts(ps, query, category) <==> p in ps && Shown(p, query, category)
    ensures IsSubsequence(FilterProducts(ps, query, category), ps)
  {
    FilterIsSubsequence(ps, (p: Listing) => Shown(p, query, category));
  }

  /** An empty search over all categories shows the whole catalogue. */
  lemma EmptySearchShowsAll(ps: seq<Listing>)
    ensures FilterProducts(ps, "", AllCategories) == ps
  {
    forall p | p in ps ensures Shown(p, "", AllCategories) {
      assert ToLower("") == "";
      assert "" <= ToLower(p.title);
    }
    FilterKeepsAll(ps, (p: Listing) => Shown(p, "", AllCategories));
  }

  lemma LowerIdempotent(s: string)
    ensures ToLower(ToLower(s)) == ToLower(s)
  {
  }

  /** The search ignores letter case: a query and its lower-case form show
      the same products. */
  lemma SearchIgnoresCase(ps: seq<Listing>, query: string, category: string)
    ensures FilterProducts(ps, query, category) == FilterProducts(ps, ToLower(query), category)
  {
    LowerIdempotent(query);
    FilterSame(ps, (p: Listing) => Shown(p, query, category), (p: Listing) => Shown(p, ToLower(query), category));
  }

  /** Choosing a category only narrows the search: whatever it shows, the
      "all" choice shows too, and all of it has that category. */
  lemma CategoryNarrows(ps: seq<Listing>, query: string, category: string)
    ensures forall p :: p in FilterProducts(ps, query, category) ==>
      p in FilterProducts(ps, query, AllCategories) && (category == AllCategories || p.category == category)
  {
    FilterMeaning(ps, query, category);
    FilterMeaning(ps, query, AllCategories);
  }
}
