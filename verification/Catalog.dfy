/**
 The catalog store (the `products` slice): the product list, the product
 under detail view, the loading and error flags, and the query state
 (page, search text, category filter). Every reducer is a pure function
 from the old state and the action's payload to the new state.
 */
module Catalog {
  import opened JsRuntime

  /** The category a product belongs to, as the server embeds it. */
  datatype CategoryRef = CategoryRef(
    id: string,
    name: string,
    image: string,
    createdAt: string,
    updatedAt: string,
    description: Option<string>)

  /** A product as the server returns it; `id` is its identity. */
  datatype Product = Product(
    id: string,
    name: string,
    description: string,
    images: seq<string>,
    price: real,
    slug: string,
    createdAt: string,
    updatedAt: string,
    category: CategoryRef)

  datatype State = State(
    products: seq<Product>,
    currentProduct: Option<Product>,
    loading: bool,
    error: Option<string>,
    totalPages: int,
    currentPage: int,
    searchQuery: string,
    selectedCategory: Option<string>)

  /** The ten actions the slice accepts, each with its payload. */
  datatype Action =
    | SetProducts(list: seq<Product>)
    | SetCurrentProduct(target: Option<Product>)
    | SetLoading(flag: bool)
    | SetError(message: Option<string>)
    | SetCurrentPage(page: int)
    | SetSearchQuery(query: string)
    | SetSelectedCategory(categoryId: Option<string>)
    | AddProduct(product: Product)
    | UpdateProduct(product: Product)
    | RemoveProduct(productId: string)

  /** The store's state at start-up. */
  function Initial(): (st: State)
    ensures st.products == [] && st.currentProduct.None?
    ensures !st.loading && st.error.None?
    ensures st.totalPages == 1 && st.currentPage == 1
    ensures st.searchQuery == "" && st.selectedCategory.None?
  {
    State([], None, false, None, 1, 1, "", None)
  }

  // ---------------------------------------------------------------------
  // Searching and filtering the list by id

  /** Position of the first product with the given id, as `findIndex`
      returns it (`None` standing for -1). */
  function FindIndex(ps: seq<Product>, id: string): (r: Option<nat>)
    ensures r.Some? ==> r.value < |ps| && ps[r.value].id == id
    ensures r.Some? ==> forall j :: 0 <= j < r.value ==> ps[j].id != id
    ensures r.None? <==> forall j :: 0 <= j < |ps| ==> ps[j].id != id
  {
    if |ps| == 0 then None
    else if ps[0].id == id then Some(0)
    else
      match FindIndex(ps[1..], id)
      case None => None
      case Some(k) => Some(k + 1)
  }

  /** Whether some product in the list carries the id. */
  predicate HasId(ps: seq<Product>, id: string)
  {
    exists j :: 0 <= j < |ps| && ps[j].id == id
  }

  /** The `filter` callback of `removeProduct`: keep products with another id. */
  function OtherId(id: string): Product -> bool
  {
    (p: Product) => p.id != id
  }

  /** Number of products carrying the id. */
  function CountId(ps: seq<Product>, id: string): nat
  {
    CountFailing(ps, OtherId(id))
  }

  // ---------------------------------------------------------------------
  // The reducers

  /** `setProducts`: the list is replaced wholesale and the fetch is over. */
  function ApplySetProducts(st: State, list: seq<Product>): (r: State)
    ensures r.products == list && !r.loading && r.error.None?
    ensures r.currentProduct == st.currentProduct && r.totalPages == st.totalPages
    ensures r.currentPage == st.currentPage && r.searchQuery == st.searchQuery
    ensures r.selectedCategory == st.selectedCategory
  {
    st.(products := list, loading := false, error := None)
  }

  /** `setCurrentProduct`: only the detail-view target changes. */
  function ApplySetCurrentProduct(st: State, target: Option<Product>): (r: State)
    ensures r.currentProduct == target
    ensures r.(currentProduct := st.currentProduct) == st
  {
    st.(currentProduct := target)
  }

  /** `setLoading`: only the loading flag changes. */
  function ApplySetLoading(st: State, flag: bool): (r: State)
    ensures r.loading == flag
    ensures r.(loading := st.loading) == st
  {
    st.(loading := flag)
  }

  /** `setError`: the message is stored, loading ends, nothing else moves. */
  function ApplySetError(st: State, message: Option<string>): (r: State)
    ensures r.error == message && !r.loading
    ensures r.products == st.products && r.currentProduct == st.currentProduct
    ensures r.(error := st.error, loading := st.loading) == st
  {
    st.(error := message, loading := false)
  }

  /** `setCurrentPage`: only the page changes; the payload is not checked. */
  function ApplySetCurrentPage(st: State, page: int): (r: State)
    ensures r.currentPage == page
    ensures r.(currentPage := st.currentPage) == st
  {
    st.(currentPage := page)
  }

  /** `setSearchQuery`: stores the text and returns to page 1, whatever the
      page was. */
  function ApplySetSearchQuery(st: State, query: string): (r: State)
    ensures r.searchQuery == query && r.currentPage == 1
    ensures r.products == st.products && r.selectedCategory == st.selectedCategory
    ensures r.(searchQuery := st.searchQuery, currentPage := st.currentPage) == st
  {
    st.(searchQuery := query, currentPage := 1)
  }

  /** `setSelectedCategory`: stores the filter and returns to page 1. */
  function ApplySetSelectedCategory(st: State, categoryId: Option<string>): (r: State)
    ensures r.selectedCategory == categoryId && r.currentPage == 1
    ensures r.products == st.products && r.searchQuery == st.searchQuery
    ensures r.(selectedCategory := st.selectedCategory, currentPage := st.currentPage) == st
  {
    st.(selectedCategory := categoryId, currentPage := 1)
  }

  /** `addProduct`: `unshift`, so the new product is first and every old
      product moves one place back. */
  function ApplyAddProduct(st: State, p: Product): (r: State)
    ensures |r.products| == |st.products| + 1
    ensures r.products[0] == p
    ensures forall j :: 0 <= j < |st.products| ==> r.products[j + 1] == st.products[j]
    ensures r.(products := st.products) == st
  {
    st.(products := [p] + st.products)
  }

  /** `updateProduct`: the first list entry with `p`'s id becomes `p` (no
      change when there is none), and the detail-view target is refreshed
      exactly when it is the same entity. */
  function ApplyUpdateProduct(st: State, p: Product): (r: State)
    ensures |r.products| == |st.products|
    ensures !HasId(st.products, p.id) ==> r.products == st.products
    ensures forall i :: 0 <= i < |st.products| && st.products[i].id == p.id
                        && (forall j :: 0 <= j < i ==> st.products[j].id != p.id)
                        ==> r.products == st.products[i := p]
    ensures st.currentProduct.Some? && st.currentProduct.value.id == p.id
            ==> r.currentProduct == Some(p)
    ensures st.currentProduct.None? || st.currentProduct.value.id != p.id
            ==> r.currentProduct == st.currentProduct
    ensures r.(products := st.products, currentProduct := st.currentProduct) == st
  {
    var list :=
      match FindIndex(st.products, p.id)
      case Some(i) => st.products[i := p]
      case None => st.products;
    var target :=
      if st.currentProduct.Some? && st.currentProduct.value.id == p.id then Some(p)
      else st.currentProduct;
    st.(products := list, currentProduct := target)
  }

  /** `removeProduct`: every entry with the id goes; the rest keep their
      order (see `RemoveProductSplits` and `RemoveProductCounts`). */
  function ApplyRemoveProduct(st: State, id: string): (r: State)
    ensures forall j :: 0 <= j < |r.products| ==> r.products[j].id != id
    ensures !HasId(st.products, id) ==> r.products == st.products
    ensures r.(products := st.products) == st
  {
    var list := Filter(st.products, OtherId(id));
    assert !HasId(st.products, id) ==> list == st.products by {
      if !HasId(st.products, id) {
        FilterKeepsAll(st.products, OtherId(id));
      }
    }
    st.(products := list)
  }

  /** The slice's reducer: one action applied to the state. */
  function Reduce(st: State, a: Action): State
  {
    match a
    case SetProducts(list) => ApplySetProducts(st, list)
    case SetCurrentProduct(target) => ApplySetCurrentProduct(st, target)
    case SetLoading(flag) => ApplySetLoading(st, flag)
    case SetError(message) => ApplySetError(st, message)
    case SetCurrentPage(page) => ApplySetCurrentPage(st, page)
    case SetSearchQuery(query) => ApplySetSearchQuery(st, query)
    case SetSelectedCategory(categoryId) => ApplySetSelectedCategory(st, categoryId)
    case AddProduct(product) => ApplyAddProduct(st, product)
    case UpdateProduct(product) => ApplyUpdateProduct(st, product)
    case RemoveProduct(productId) => ApplyRemoveProduct(st, productId)
  }

  /** A sequence of actions dispatched in order. */
  function ReduceAll(st: State, actions: seq<Action>): State
    decreases |actions|
  {
    if |actions| == 0 then st else ReduceAll(Reduce(st, actions[0]), actions[1..])
  }

  /** Every page the actions name is at least 1. */
  predicate PagesPositive(actions: seq<Action>)
  {
    forall k :: 0 <= k < |actions| ==> actions[k].SetCurrentPage? ==> actions[k].page >= 1
  }

  // ---------------------------------------------------------------------
  // Properties

  /** No action ever changes `totalPages`, so it stays 1 from the start. */
  lemma {:induction false} TotalPagesNeverChanges(st: State, actions: seq<Action>)
    ensures ReduceAll(st, actions).totalPages == st.totalPages
    decreases |actions|
  {
    if |actions| > 0 {
      TotalPagesNeverChanges(Reduce(st, actions[0]), actions[1..]);
    }
  }

  /** The page stays at least 1 as long as every `setCurrentPage` payload
      is at least 1. */
  lemma {:induction false} PageStaysPositive(st: State, actions: seq<Action>)
    requires st.currentPage >= 1
    requires PagesPositive(actions)
    ensures ReduceAll(st, actions).currentPage >= 1
    decreases |actions|
  {
    if |actions| > 0 {
      assert actions[0].SetCurrentPage? ==> actions[0].page >= 1;
      assert PagesPositive(actions[1..]) by {
        forall k | 0 <= k < |actions[1..]|
          ensures actions[1..][k].SetCurrentPage? ==> actions[1..][k].page >= 1
        {
          assert actions[1..][k] == actions[k + 1];
        }
      }
      PageStaysPositive(Reduce(st, actions[0]), actions[1..]);
    }
  }

  /** After `addProduct(p)` a lookup by `p`'s id finds `p` at index 0. */
  lemma AddThenFind(st: State, p: Product)
    ensures FindIndex(ApplyAddProduct(st, p).products, p.id) == Some(0)
  {
  }

  /** `removeProduct` undoes `addProduct` of a product whose id was new. */
  lemma AddThenRemove(st: State, p: Product)
    requires !HasId(st.products, p.id)
    ensures ApplyRemoveProduct(ApplyAddProduct(st, p), p.id) == st
  {
    FilterSplits([p], st.products, OtherId(p.id));
    FilterKeepsAll(st.products, OtherId(p.id));
  }

  /** After `updateProduct(p)` on a list holding `p`'s id, the first entry
      with that id is `p` itself. */
  lemma UpdateThenFind(st: State, p: Product)
    requires HasId(st.products, p.id)
    ensures var r := ApplyUpdateProduct(st, p);
            FindIndex(r.products, p.id) == FindIndex(st.products, p.id)
            && r.products[FindIndex(st.products, p.id).value] == p
  {
    var i := FindIndex(st.products, p.id).value;
    var r := ApplyUpdateProduct(st, p);
    assert r.products == st.products[i := p];
    FindIndexStable(st.products, i, p);
  }

  /** Overwriting the first match by an entry with the same id keeps it the
      first match. */
  lemma {:induction false} FindIndexStable(ps: seq<Product>, i: nat, p: Product)
    requires FindIndex(ps, p.id) == Some(i)
    ensures FindIndex(ps[i := p], p.id) == Some(i)
  {
    if i > 0 {
      assert ps[i := p][1..] == ps[1..][i - 1 := p];
      FindIndexStable(ps[1..], i - 1, p);
    }
  }

  /** `removeProduct` keeps the survivors' order: removing from a
      concatenation is removing from each part. */
  lemma RemoveProductSplits(st: State, a: seq<Product>, b: seq<Product>, id: string)
    requires st.products == a + b
    ensures ApplyRemoveProduct(st, id).products
            == ApplyRemoveProduct(st.(products := a), id).products + ApplyRemoveProduct(st.(products := b), id).products
  {
    FilterSplits(a, b, OtherId(id));
  }

  /** `removeProduct` keeps each product with another id exactly as often
      as it occurred and drops every product with the id. */
  lemma RemoveProductCounts(st: State, id: string)
    ensures var r := ApplyRemoveProduct(st, id);
            forall q :: multiset(r.products)[q] == (if q.id == id then 0 else multiset(st.products)[q])
  {
    FilterCounts(st.products, OtherId(id));
  }

  /** The list shrinks by exactly the number of entries carrying the id,
      so by one when the id occurs once. */
  lemma RemoveProductLength(st: State, id: string)
    ensures |ApplyRemoveProduct(st, id).products| == |st.products| - CountId(st.products, id)
  {
    FilterLength(st.products, OtherId(id));
  }

  /** `removeProduct` on an id held by exactly one entry removes one entry. */
  lemma RemoveUniqueShrinksByOne(st: State, id: string)
    requires CountId(st.products, id) == 1
    ensures |ApplyRemoveProduct(st, id).products| == |st.products| - 1
  {
    RemoveProductLength(st, id);
  }
}
