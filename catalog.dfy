/**
 * The product listing filter (routes.py:26-46). Only active products are
 * listed. A non-empty search keeps products whose name or description
 * contains it; a category, minimum price or maximum price narrows the list
 * only when it is given and non-zero, because the source tests each with
 * Python truthiness (`if category_id:`, `if min_price:`, `if max_price:`).
 */
module Catalog {
  import opened Wrappers
  import opened Store

  /** The query string: `search`, `category`, `min_price`, `max_price` (prices in cents). */
  datatype Filter = Filter(search: string, category: Option<int>, minPrice: Option<int>, maxPrice: Option<int>)

  /** `part` occurs in `text` as a contiguous piece. */
  predicate Contains(text: string, part: string) {
    exists i, j :: 0 <= i <= j <= |text| && text[i..j] == part
  }

  /** Python truthiness of an optional number: present and non-zero. */
  predicate Given(bound: Option<int>) {
    bound.Some? && bound.value != 0
  }

  /** The conjunction of `filter_by`/`filter` calls that the handler builds. */
  predicate Matches(p: Product, f: Filter) {
    && p.isActive
    && (f.search != "" ==> Contains(p.name, f.search) || Contains(p.description, f.search))
    && (Given(f.category) ==> p.categoryId.Some? && p.categoryId.value == f.category.value)
    && (Given(f.minPrice) ==> p.price >= f.minPrice.value)
    && (Given(f.maxPrice) ==> p.price <= f.maxPrice.value)
  }

  /** The ids the query returns, before pagination. */
  function Listing(products: map<Id, Product>, f: Filter): (r: set<Id>)
    ensures r <= products.Keys
    ensures forall id :: id in products && !products[id].isActive ==> id !in r
  {
    set id | id in products && Matches(products[id], f)
  }

  /** The empty search string is contained in every text, so leaving it empty and giving it make no difference. */
  lemma EmptySearchMatchesAll(text: string)
    ensures Contains(text, "")
  {
    assert text[0..0] == "";
  }

  /** A zero category, minimum or maximum lists exactly what an absent one lists. */
  lemma ZeroIsNoBound(products: map<Id, Product>, f: Filter)
    ensures Listing(products, f.(category := Some(0))) == Listing(products, f.(category := None))
    ensures Listing(products, f.(minPrice := Some(0))) == Listing(products, f.(minPrice := None))
    ensures Listing(products, f.(maxPrice := Some(0))) == Listing(products, f.(maxPrice := None))
  {
  }

  /** With no criteria the listing is every active product. */
  lemma NoCriteriaListsActive(products: map<Id, Product>)
    ensures Listing(products, Filter("", None, None, None)) == set id | id in products && products[id].isActive
  {
  }

  /** Giving a criterion can only narrow the listing. */
  lemma CriteriaNarrow(products: map<Id, Product>, f: Filter, search: string, category: int, lo: int, hi: int)
    requires f.search == "" || f.search == search
    ensures Listing(products, f.(search := search)) <= Listing(products, f.(search := ""))
    ensures Listing(products, f.(category := Some(category))) <= Listing(products, f.(category := None))
    ensures Listing(products, f.(minPrice := Some(lo))) <= Listing(products, f.(minPrice := None))
    ensures Listing(products, f.(maxPrice := Some(hi))) <= Listing(products, f.(maxPrice := None))
  {
  }

  /** A product is listed under its own category whenever it is listed with no category. */
  lemma OwnCategoryKeeps(products: map<Id, Product>, f: Filter, id: Id)
    requires id in Listing(products, f.(category := None))
    requires products[id].categoryId.Some?
    ensures id in Listing(products, f.(category := Some(products[id].categoryId.value)))
  {
  }

  /** Bounds with the minimum above the maximum list nothing. */
  lemma CrossedBoundsListNothing(products: map<Id, Product>, f: Filter)
    requires Given(f.minPrice) && Given(f.maxPrice) && f.minPrice.value > f.maxPrice.value
    ensures Listing(products, f) == {}
  {
  }
}
