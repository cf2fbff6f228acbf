/** The stand-alone scroll saver that runs when the page cache is absent. It
    classifies pages exactly like the page cache but, unlike it, also saves
    and restores on dish pages. Session storage is a map; the viewport offset
    is a natural number. */
module SimpleScrollRestore {
  import opened Wrappers
  import opened Text
  import PageCache

  /** This file's own copy of `getPageName`. */
  function GetPageName(path: string, search: string): PageCache.Page {
    if Contains(path, "index.html") then PageCache.Home
    else if Contains(path, "restaurant.html") then
      var id := PageCache.QueryParam(search, "id");
      if id.Some? && id.value != "" then PageCache.RestaurantWithId(id.value) else PageCache.RestaurantNoId
    else if Contains(path, "cart.html") then PageCache.Cart
    else if Contains(path, "profile.html") then PageCache.Profile
    else if Contains(path, "order.html") then PageCache.OrderPage
    else if Contains(path, "checkout.html") then PageCache.Checkout
    else if Contains(path, "dish.html") then PageCache.Dish
    else PageCache.Unknown
  }

  /** The two copies of the classifier agree on every path and query. */
  lemma GetPageNameAgrees(path: string, search: string)
    ensures GetPageName(path, search) == PageCache.GetPageName(path, search)
  {
  }

  /** `saveScrollPosition()`: exactly one key, the page's, now holds the
      current offset; dish pages are not excluded. */
  function SaveScrollPosition(session: map<string, string>, path: string, search: string, offset: nat): (r: map<string, string>)
    ensures r.Keys == session.Keys + {PageCache.ScrollKey(GetPageName(path, search))}
    ensures r[PageCache.ScrollKey(GetPageName(path, search))] == IntToString(offset)
    ensures forall k | k in session && k != PageCache.ScrollKey(GetPageName(path, search)) :: r[k] == session[k]
  {
    session[PageCache.ScrollKey(GetPageName(path, search)) := IntToString(offset)]
  }

  /** `restoreScrollPosition()`: the offset to scroll to, if any. Only a
      non-empty saved value that `parseInt` reads as a positive number yields
      one. The result type leaves no room for a write to session storage. */
  function RestoreScrollPosition(session: map<string, string>, path: string, search: string): (target: Option<int>)
    ensures var key := PageCache.ScrollKey(GetPageName(path, search));
      target.Some? <==> key in session && JsParseInt(session[key]).Some? && JsParseInt(session[key]).value > 0
    ensures target.Some? ==>
      target.value > 0 && JsParseInt(session[PageCache.ScrollKey(GetPageName(path, search))]) == target
  {
    var key := PageCache.ScrollKey(GetPageName(path, search));
    if key !in session || session[key] == "" then None
    else
      var y := JsParseInt(session[key]);
      if y.Some? && y.value > 0 then y else None
  }

  /** What `init()` does: with a page cache present nothing is installed;
      otherwise the saved position is restored at once and the scroll and
      unload handlers are installed. */
  datatype InitOutcome = Disabled | Installed(restoreTo: Option<int>)

  function Init(pageCachePresent: bool, session: map<string, string>, path: string, search: string): (r: InitOutcome)
    ensures r.Disabled? <==> pageCachePresent
    ensures r.Installed? ==> r.restoreTo == RestoreScrollPosition(session, path, search)
  {
    if pageCachePresent then Disabled
    else Installed(RestoreScrollPosition(session, path, search))
  }

  /** A positive offset saved on a page is the one restored there. */
  lemma SaveThenRestore(session: map<string, string>, path: string, search: string, offset: nat)
    ensures offset > 0 ==> RestoreScrollPosition(SaveScrollPosition(session, path, search, offset), path, search) == Some(offset)
    ensures offset == 0 ==> RestoreScrollPosition(SaveScrollPosition(session, path, search, offset), path, search).None?
  {
    JsParseIntOfIntToString(offset);
  }

  /** Without the page cache, a page loaded after a positive offset was
      saved on it is scrolled back there. */
  lemma InitRestoresSaved(session: map<string, string>, path: string, search: string, offset: nat)
    requires offset > 0
    ensures Init(false, SaveScrollPosition(session, path, search, offset), path, search) == Installed(Some(offset))
    ensures Init(true, SaveScrollPosition(session, path, search, offset), path, search) == Disabled
  {
    SaveThenRestore(session, path, search, offset);
  }

  /** The two scripts differ on dish pages: this one writes `scroll_dish` and
      restores from it, the page cache neither writes nor reads it. */
  lemma DishPagesDiverge(st: PageCache.ScrollState, search: string, offset: nat)
    requires offset > 0
    ensures PageCache.ScrollKey(PageCache.Dish) in SaveScrollPosition(st.session, "/static/dish.html", search, offset)
    ensures PageCache.AutoSave(st, PageCache.GetPageName("/static/dish.html", search), offset) == st
    ensures RestoreScrollPosition(SaveScrollPosition(st.session, "/static/dish.html", search, offset), "/static/dish.html", search) == Some(offset)
    ensures PageCache.PlanRestore(st, PageCache.GetPageName("/static/dish.html", search)).0 == PageCache.SkipDish
  {
    PageCache.DishPageExample(search);
    GetPageNameAgrees("/static/dish.html", search);
    SaveThenRestore(st.session, "/static/dish.html", search, offset);
  }
}
