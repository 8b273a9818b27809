/**
 The product-list page: which request `fetchProducts` issues and what it
 dispatches with the result, the debounced search, the category filter,
 the pager's rules and the delete dialog. Network results are inputs;
 timers, effect scheduling and in-flight races are not modelled (events
 happen one at a time, in the order given).
 */
module ProductList {
  import opened JsRuntime
  import Catalog

  const PageSize: nat := 10
  const FetchFallback := "Failed to fetch products"
  const DeleteFallback := "Failed to delete product"

  /** The two remote reads: the unpaginated search, and the paginated list
      with an optional category filter. */
  datatype Request =
    | Search(searchedText: string)
    | List(offset: int, limit: nat, categoryId: Option<string>)

  /** `...(selectedCategory && { categoryId })`: the filter takes part only
      when it is set and non-empty. */
  predicate FilterActive(selected: Option<string>)
  {
    selected.Some? && Truthy(selected.value)
  }

  /** The request `fetchProducts` makes for the current query state. */
  function SelectRequest(st: Catalog.State): (r: Request)
    ensures r.Search? <==> st.searchQuery != ""
    ensures r.Search? ==> r.searchedText == st.searchQuery
    ensures r.List? ==> r.limit == PageSize && r.offset == (st.currentPage - 1) * PageSize
    ensures r.List? ==> (r.categoryId.Some? <==> FilterActive(st.selectedCategory))
    ensures r.List? && r.categoryId.Some? ==> r.categoryId == st.selectedCategory
  {
    if Truthy(st.searchQuery) then
      Search(st.searchQuery)
    else
      var category := if FilterActive(st.selectedCategory) then st.selectedCategory else None;
      List((st.currentPage - 1) * PageSize, PageSize, category)
  }

  /** What the remote read gave back. */
  datatype FetchOutcome = Fetched(data: seq<Catalog.Product>) | FetchFailed(message: Option<string>)

  /** One run of `fetchProducts`: the request made (if any), the actions
      dispatched in order, and the catalog they leave. */
  datatype FetchResult = FetchResult(request: Option<Request>, dispatched: seq<Catalog.Action>, catalog: Catalog.State)

  /** `fetchProducts`: nothing at all without a session; otherwise loading
      is raised, the request for the query state is made, and its result
      replaces the list or becomes the error message. */
  function FetchProducts(isAuthenticated: bool, st: Catalog.State, outcome: FetchOutcome): (r: FetchResult)
    ensures r.catalog == Catalog.ReduceAll(st, r.dispatched)
    ensures !isAuthenticated ==> r.request.None? && r.dispatched == [] && r.catalog == st
    ensures isAuthenticated ==> r.request == Some(SelectRequest(st))
    ensures isAuthenticated && outcome.Fetched? ==>
              && r.dispatched == [Catalog.SetLoading(true), Catalog.SetProducts(outcome.data)]
              && r.catalog.products == outcome.data && !r.catalog.loading && r.catalog.error.None?
    ensures isAuthenticated && outcome.FetchFailed? ==>
              && r.dispatched == [Catalog.SetLoading(true), Catalog.SetError(Some(OrFallback(outcome.message, FetchFallback)))]
              && r.catalog.products == st.products && !r.catalog.loading
              && r.catalog.error == Some(OrFallback(outcome.message, FetchFallback))
    ensures r.catalog.currentPage == st.currentPage && r.catalog.searchQuery == st.searchQuery
  {
    if !isAuthenticated then
      FetchResult(None, [], st)
    else
      var request := SelectRequest(st);
      var last := match outcome
        case Fetched(data) => Catalog.SetProducts(data)
        case FetchFailed(message) => Catalog.SetError(Some(OrFallback(message, FetchFallback)));
      var actions := [Catalog.SetLoading(true), last];
      var loading := Catalog.Reduce(st, actions[0]);
      assert Catalog.ReduceAll(st, actions) == Catalog.Reduce(loading, last) by {
        assert actions[1..] == [last] && [last][1..] == [];
        assert Catalog.ReduceAll(st, actions) == Catalog.ReduceAll(loading, [last]);
        assert Catalog.ReduceAll(loading, [last]) == Catalog.ReduceAll(Catalog.Reduce(loading, last), []);
      }
      FetchResult(Some(request), actions, Catalog.Reduce(loading, last))
  }

  /** The debounced timer's body: it dispatches `setSearchQuery(local)`
      exactly when the typed text differs from the stored query. */
  function DebounceDispatch(local: string, stored: string): (r: Option<Catalog.Action>)
    ensures r.Some? <==> local != stored
    ensures r.Some? ==> r.value == Catalog.SetSearchQuery(local)
  {
    if local != stored then Some(Catalog.SetSearchQuery(local)) else None
  }

  /** Applying the timer's dispatch, if any. */
  function Debounce(local: string, st: Catalog.State): Catalog.State
  {
    match DebounceDispatch(local, st.searchQuery)
    case Some(a) => Catalog.Reduce(st, a)
    case None => st
  }

  /** `handleCategoryFilter`: the select's `""` option means no filter;
      any other value is the category id. The reducer resets the page. */
  function HandleCategoryFilter(st: Catalog.State, categoryId: string): (r: Catalog.State)
    ensures r.selectedCategory.None? <==> categoryId == ""
    ensures r.selectedCategory.Some? ==> r.selectedCategory.value == categoryId
    ensures r.currentPage == 1
    ensures r.products == st.products && r.searchQuery == st.searchQuery
  {
    Catalog.ApplySetSelectedCategory(st, if categoryId == "" then None else Some(categoryId))
  }

  /** The value the category select displays: `selectedCategory || ""`. */
  function SelectValue(selected: Option<string>): string
  {
    if selected.Some? then selected.value else ""
  }

  // ---------------------------------------------------------------------
  // Pager

  /** The content area shows the spinner or the error box instead of the
      product grid: `loading`, or an error message that is truthy. */
  predicate ContentBusy(st: Catalog.State)
  {
    st.loading || (st.error.Some? && Truthy(st.error.value))
  }

  /** The pager is part of the product grid, so it is drawn only when the
      content area is neither loading nor showing an error, outside search
      mode, and with a full page of products. */
  predicate PagerVisible(st: Catalog.State)
  {
    !ContentBusy(st) && !Truthy(st.searchQuery) && |st.products| >= PageSize
  }

  /** "Previous" is disabled on the first page. */
  predicate PreviousDisabled(st: Catalog.State)
  {
    st.currentPage == 1
  }

  /** "Next" is disabled when the page is not full. */
  predicate NextDisabled(st: Catalog.State)
  {
    |st.products| < PageSize
  }

  // ---------------------------------------------------------------------
  // Delete dialog

  datatype DeleteDialog = DeleteDialog(isOpen: bool, product: Option<Catalog.Product>)

  const Closed := DeleteDialog(false, None)

  datatype DeleteOutcome = Deleted | DeleteFailed(message: Option<string>)

  /** After a confirm: the id sent for deletion (if any), the dialog, the
      catalog, the alert shown (if any) and the spinner flag. */
  datatype DeleteResult = DeleteResult(
    request: Option<string>,
    dialog: DeleteDialog,
    catalog: Catalog.State,
    alert: Option<string>,
    isDeleting: bool)

  /** `handleDeleteConfirm`: with no target nothing happens; a successful
      delete removes the id from the list and closes the dialog; a failed
      one alerts and leaves list and dialog as they were. */
  function HandleDeleteConfirm(dialog: DeleteDialog, st: Catalog.State, outcome: DeleteOutcome,
                               isDeleting: bool): (r: DeleteResult)
    ensures dialog.product.None? ==>
              r == DeleteResult(None, dialog, st, None, isDeleting)
    ensures dialog.product.Some? ==> r.request == Some(dialog.product.value.id) && !r.isDeleting
    ensures dialog.product.Some? && outcome.Deleted? ==>
              && r.catalog == Catalog.ApplyRemoveProduct(st, dialog.product.value.id)
              && !Catalog.HasId(r.catalog.products, dialog.product.value.id)
              && r.dialog == Closed && r.alert.None?
    ensures dialog.product.Some? && outcome.DeleteFailed? ==>
              && r.catalog == st && r.dialog == dialog
              && r.alert == Some(OrFallback(outcome.message, DeleteFallback))
  {
    match dialog.product
    case None => DeleteResult(None, dialog, st, None, isDeleting)
    case Some(p) =>
      match outcome
      case Deleted => DeleteResult(Some(p.id), Closed, Catalog.ApplyRemoveProduct(st, p.id), None, false)
      case DeleteFailed(message) =>
        DeleteResult(Some(p.id), dialog, st, Some(OrFallback(message, DeleteFallback)), false)
  }

  // ---------------------------------------------------------------------
  // The page as a sequence of user and network events

  datatype Page = Page(isAuthenticated: bool, catalog: Catalog.State, localSearch: string, dialog: DeleteDialog)

  datatype Event =
    | TypeSearch(text: string)
    | DebounceFires
    | ChooseCategory(categoryId: string)
    | ClearSearch
    | ClearCategory
    | PreviousPage
    | NextPage
    | FetchDone(fetch: FetchOutcome)
    | AskDelete(target: Catalog.Product)
    | CancelDelete
    | ConfirmDelete(deletion: DeleteOutcome)

  /** The event comes from a control the page draws: everything but the
      two effects (the debounce timer and the fetch). */
  predicate FromControl(ev: Event)
  {
    !ev.DebounceFires? && !ev.FetchDone?
  }

  /** One event. Without a session the page draws nothing, so no control
      event does anything; the effects still run. Pager clicks only act
      when their button is shown and enabled; the two clear buttons exist
      only while there is a search or a category filter to clear; clearing
      the search empties the box and the stored query. */
  function Step(pg: Page, ev: Event): Page
  {
    if FromControl(ev) && !pg.isAuthenticated then pg
    else match ev
    case TypeSearch(text) => pg.(localSearch := text)
    case DebounceFires => pg.(catalog := Debounce(pg.localSearch, pg.catalog))
    case ChooseCategory(id) => pg.(catalog := HandleCategoryFilter(pg.catalog, id))
    case ClearSearch =>
      if Truthy(pg.catalog.searchQuery) then
        pg.(localSearch := "", catalog := Catalog.ApplySetSearchQuery(pg.catalog, ""))
      else pg
    case ClearCategory =>
      if FilterActive(pg.catalog.selectedCategory) then
        pg.(catalog := Catalog.ApplySetSelectedCategory(pg.catalog, None))
      else pg
    case PreviousPage =>
      if PagerVisible(pg.catalog) && !PreviousDisabled(pg.catalog) then
        pg.(catalog := Catalog.ApplySetCurrentPage(pg.catalog, pg.catalog.currentPage - 1))
      else pg
    case NextPage =>
      if PagerVisible(pg.catalog) && !NextDisabled(pg.catalog) then
        pg.(catalog := Catalog.ApplySetCurrentPage(pg.catalog, pg.catalog.currentPage + 1))
      else pg
    case FetchDone(outcome) => pg.(catalog := FetchProducts(pg.isAuthenticated, pg.catalog, outcome).catalog)
    case AskDelete(p) => pg.(dialog := DeleteDialog(true, Some(p)))
    case CancelDelete => pg.(dialog := Closed)
    case ConfirmDelete(outcome) =>
      var r := HandleDeleteConfirm(pg.dialog, pg.catalog, outcome, false);
      pg.(catalog := r.catalog, dialog := r.dialog)
  }

  function Run(pg: Page, events: seq<Event>): Page
    decreases |events|
  {
    if |events| == 0 then pg else Run(Step(pg, events[0]), events[1..])
  }

  // ---------------------------------------------------------------------
  // Properties

  /** Search mode ignores the page and the category filter entirely. */
  lemma SearchIgnoresPageAndCategory(st: Catalog.State, page: int, category: Option<string>)
    requires st.searchQuery != ""
    ensures SelectRequest(st.(currentPage := page, selectedCategory := category)) == SelectRequest(st)
  {
  }

  /** Consecutive pages ask for adjacent windows, starting at offset 0. */
  lemma PagesTile(st: Catalog.State)
    requires st.searchQuery == "" && st.currentPage >= 1
    ensures var r := SelectRequest(st);
            var next := SelectRequest(st.(currentPage := st.currentPage + 1));
            && r.offset >= 0 && r.offset % PageSize == 0
            && (st.currentPage == 1 ==> r.offset == 0)
            && next.offset == r.offset + r.limit
  {
    var r := SelectRequest(st);
    assert r.offset == (st.currentPage - 1) * PageSize;
  }

  /** The select shows back the value the user picked: `""` for no filter
      and the id otherwise. */
  lemma CategoryFilterRoundTrip(st: Catalog.State, categoryId: string)
    ensures SelectValue(HandleCategoryFilter(st, categoryId).selectedCategory) == categoryId
    ensures var r := SelectRequest(HandleCategoryFilter(st, categoryId));
            r.List? ==> (r.categoryId.Some? <==> categoryId != "")
  {
  }

  /** Once the timer's dispatch has been applied the stored query equals
      the typed text, the page is 1, and a second firing dispatches nothing. */
  lemma DebounceSettles(local: string, st: Catalog.State)
    ensures var st' := Debounce(local, st);
            && st'.searchQuery == local
            && DebounceDispatch(local, st'.searchQuery).None?
            && (local != st.searchQuery ==> st'.currentPage == 1)
  {
  }

  /** Scenario: typing "chair" on page 3 and letting the timer fire gives
      page 1 and a search request rather than a page request. */
  lemma ChairScenario(st: Catalog.State)
    requires st.currentPage == 3 && st.searchQuery == ""
    ensures var st' := Debounce("chair", st);
            st'.currentPage == 1 && SelectRequest(st') == Search("chair")
  {
  }

  /** The "Next" button's disabling rule never fires while the pager is on
      screen; "Previous" is disabled exactly on page 1. */
  lemma NextNeverDisabledWhileVisible(st: Catalog.State)
    requires PagerVisible(st)
    ensures !NextDisabled(st)
    ensures PreviousDisabled(st) <==> st.currentPage == 1
  {
  }

  /** While the spinner or the error box stands in for the product grid
      there is no pager, so neither pager click changes anything. */
  lemma BusyPageIgnoresPager(pg: Page)
    requires ContentBusy(pg.catalog)
    ensures Step(pg, NextPage) == pg && Step(pg, PreviousPage) == pg
  {
  }

  /** The page moves only through an enabled pager button, by exactly one,
      or through a change of the search text or of the category filter,
      which resets it to 1. */
  lemma PageMovesOnlyByPagerOrFilters(pg: Page, ev: Event)
    ensures var after := Step(pg, ev).catalog.currentPage;
            after != pg.catalog.currentPage ==>
              || (ev.NextPage? && PagerVisible(pg.catalog) && after == pg.catalog.currentPage + 1)
              || (ev.PreviousPage? && PagerVisible(pg.catalog) && after == pg.catalog.currentPage - 1)
              || ((ev.DebounceFires? || ev.ChooseCategory? || ev.ClearSearch? || ev.ClearCategory?) && after == 1)
  {
  }

  /** The search chip's clear button empties both the box and the stored
      query, after which the debounce timer has nothing to dispatch. */
  lemma ClearSearchSettles(pg: Page)
    requires Truthy(pg.catalog.searchQuery)
    ensures var pg' := Step(pg, ClearSearch);
            pg.isAuthenticated ==>
              && pg'.localSearch == "" && pg'.catalog.searchQuery == ""
              && pg'.catalog.currentPage == 1
              && Step(pg', DebounceFires) == pg'
    ensures !pg.isAuthenticated ==> Step(pg, ClearSearch) == pg
  {
  }

  /** Without a session the page renders nothing: no control event changes
      the page, while the debounce timer and the fetch still run. */
  lemma SignedOutIgnoresControls(pg: Page, ev: Event)
    requires !pg.isAuthenticated
    ensures FromControl(ev) ==> Step(pg, ev) == pg
    ensures ev.DebounceFires? ==> Step(pg, ev).catalog == Debounce(pg.localSearch, pg.catalog)
    ensures ev.FetchDone? ==> Step(pg, ev) == pg
  {
  }

  /** Starting from a page of at least 1, no sequence of events takes the
      list below page 1, and `totalPages` never moves. */
  lemma {:induction false} PageStaysPositive(pg: Page, events: seq<Event>)
    requires pg.catalog.currentPage >= 1
    ensures Run(pg, events).catalog.currentPage >= 1
    ensures Run(pg, events).catalog.totalPages == pg.catalog.totalPages
    decreases |events|
  {
    if |events| > 0 {
      PageStaysPositive(Step(pg, events[0]), events[1..]);
    }
  }

  /** A failed delete changes nothing the user sees except the alert; a
      successful one leaves every other product in place. */
  lemma DeleteKeepsOthers(dialog: DeleteDialog, st: Catalog.State, outcome: DeleteOutcome, q: Catalog.Product)
    requires dialog.product.Some? && q.id != dialog.product.value.id
    ensures var r := HandleDeleteConfirm(dialog, st, outcome, true);
            multiset(r.catalog.products)[q] == multiset(st.products)[q]
  {
    Catalog.RemoveProductCounts(st, dialog.product.value.id);
  }
}
