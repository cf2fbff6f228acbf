/** The browser page cache: a persisted URL -> snapshot store with a
    ten-entry capacity and a 24-hour lazy expiry, the navigation decision that
    uses it, the page classifier, and the scroll-record rules with their
    "restoring" flag. Storage, DOM and timers are abstracted: the store is the
    parsed `page_cache` object, session storage is a map, time is an integer
    millisecond clock passed in as `now`. */
module PageCache {
  import opened Wrappers
  import opened Text

  /** 24 hours in milliseconds. */
  const CacheExpiry: int := 24 * 60 * 60 * 1000
  const MaxCacheSize: nat := 10

  datatype Entry = Entry(content: string, timestamp: int)

  /** One property of the persisted object. */
  datatype Slot = Slot(url: string, entry: Entry)

  /** The persisted object, in JavaScript property order: a new key is
      appended, an overwritten key keeps its place. */
  type Store = seq<Slot>

  /** A JavaScript object never holds a key twice. */
  predicate DistinctUrls(s: Store) {
    forall i, j | 0 <= i < j < |s| :: s[i].url != s[j].url
  }

  /** `cache[url]`. */
  function Find(s: Store, url: string): (r: Option<Entry>)
    ensures r.None? <==> forall k | 0 <= k < |s| :: s[k].url != url
  {
    if |s| == 0 then None
    else if s[0].url == url then Some(s[0].entry)
    else
      var r := Find(s[1..], url);
      assert forall k | 1 <= k < |s| :: s[k] == s[1..][k - 1];
      r
  }

  /** `delete cache[url]`: that key goes, every other key keeps its entry. */
  function Delete(s: Store, url: string): (r: Store)
    ensures Find(r, url).None?
    ensures forall u | u != url :: Find(r, u) == Find(s, u)
    ensures |r| <= |s|
    ensures DistinctUrls(s) ==> DistinctUrls(r)
    ensures DistinctUrls(s) && Find(s, url).Some? ==> |r| == |s| - 1
    ensures Find(s, url).None? ==> r == s
  {
    if |s| == 0 then []
    else if s[0].url == url then
      var r := Delete(s[1..], url);
      assert DistinctUrls(s) ==> Find(s[1..], url).None?;
      r
    else
      var rest := Delete(s[1..], url);
      var r := [s[0]] + rest;
      assert DistinctUrls(s) ==> Find(s[1..], s[0].url).None?;
      assert DistinctUrls(s) ==> Find(rest, s[0].url).None?;
      r
  }

  /** `cache[url] = e`: overwrite in place, or append a new key. */
  function Put(s: Store, url: string, e: Entry): (r: Store)
    ensures Find(r, url) == Some(e)
    ensures forall u | u != url :: Find(r, u) == Find(s, u)
    ensures |r| == if Find(s, url).Some? then |s| else |s| + 1
  {
    if |s| == 0 then [Slot(url, e)]
    else if s[0].url == url then
      var r := [Slot(url, e)] + s[1..];
      assert r[1..] == s[1..];
      r
    else
      var rest := Put(s[1..], url, e);
      var r := [s[0]] + rest;
      assert r[1..] == rest;
      r
  }

  /** Setting a key never makes a key appear twice. */
  lemma {:induction false} PutKeepsDistinct(s: Store, url: string, e: Entry)
    requires DistinctUrls(s)
    ensures DistinctUrls(Put(s, url, e))
    decreases |s|
  {
    if |s| > 0 && s[0].url != url {
      var rest := Put(s[1..], url, e);
      PutKeepsDistinct(s[1..], url, e);
      assert Find(s[1..], s[0].url).None?;
      assert Find(rest, s[0].url).None?;
      var r := Put(s, url, e);
      assert forall k | 1 <= k < |r| :: r[k] == rest[k - 1];
    } else if |s| > 0 {
      var r := Put(s, url, e);
      assert forall k | 1 <= k < |r| :: r[k] == s[k];
    }
  }

  /** The `reduce` at page-cache.js:67-69: the first key, in property order,
      whose timestamp is minimal. */
  function OldestIndex(s: Store): (k: nat)
    requires |s| > 0
    ensures k < |s|
    ensures forall j | 0 <= j < |s| :: s[k].entry.timestamp <= s[j].entry.timestamp
    ensures forall j | 0 <= j < k :: s[j].entry.timestamp > s[k].entry.timestamp
  {
    if |s| == 1 then 0
    else
      var b := OldestIndex(s[..|s| - 1]);
      if s[|s| - 1].entry.timestamp < s[b].entry.timestamp then |s| - 1 else b
  }

  /** What `getCachedPage` returns and the store it leaves behind. */
  datatype Lookup = Lookup(content: Option<string>, store: Store)

  /** `getCachedPage(url)` at time `now`. */
  function GetCachedPage(s: Store, url: string, now: int): (r: Lookup)
    ensures Find(s, url).None? ==> r == Lookup(None, s)
    ensures Find(s, url).Some? && now - Find(s, url).value.timestamp > CacheExpiry ==>
      r.content.None? && Find(r.store, url).None? &&
      forall u | u != url :: Find(r.store, u) == Find(s, u)
    ensures Find(s, url).Some? && now - Find(s, url).value.timestamp <= CacheExpiry ==>
      r == Lookup(Some(Find(s, url).value.content), s)
  {
    match Find(s, url)
    case None => Lookup(None, s)
    case Some(e) =>
      if now - e.timestamp > CacheExpiry then Lookup(None, Delete(s, url))
      else Lookup(Some(e.content), s)
  }

  /** `cachePage(url, content)` at time `now`: at ten or more keys the oldest
      key is deleted first, whether or not `url` is already a key; then
      `url` is set. */
  function CachePage(s: Store, url: string, content: string, now: int): (r: Store)
    ensures Find(r, url) == Some(Entry(content, now))
    ensures DistinctUrls(s) ==> DistinctUrls(r)
    ensures DistinctUrls(s) && |s| <= MaxCacheSize ==> |r| <= MaxCacheSize
    ensures |s| < MaxCacheSize ==> forall u | u != url :: Find(r, u) == Find(s, u)
    ensures |s| >= MaxCacheSize ==>
      var old_ := s[OldestIndex(s)].url;
      (old_ != url ==> Find(r, old_).None?) &&
      forall u | u != url && u != old_ :: Find(r, u) == Find(s, u)
  {
    var evicted := if |s| >= MaxCacheSize then Delete(s, s[OldestIndex(s)].url) else s;
    if DistinctUrls(s) then
      PutKeepsDistinct(evicted, url, Entry(content, now));
      Put(evicted, url, Entry(content, now))
    else Put(evicted, url, Entry(content, now))
  }

  /** Every key that survives a `cachePage` keeps its old entry. */
  lemma CachePageKeepsSurvivors(s: Store, url: string, content: string, now: int, u: string)
    requires u != url && Find(CachePage(s, url, content, now), u).Some?
    ensures Find(CachePage(s, url, content, now), u) == Find(s, u)
  {
  }

  /** Overwriting a key of a full store still evicts: the store shrinks to
      nine keys when the overwritten key is not the oldest. */
  lemma CachePageEvictsOnOverwrite(s: Store, url: string, content: string, now: int)
    requires DistinctUrls(s) && |s| == MaxCacheSize
    requires Find(s, url).Some? && url != s[OldestIndex(s)].url
    ensures |CachePage(s, url, content, now)| == MaxCacheSize - 1
  {
    var old_ := s[OldestIndex(s)].url;
    assert Find(s, old_).Some?;
  }

  /** Round trip: a page cached at `stored` is served at any `now` at most
      24 hours later, and the lookup leaves the store as it was. */
  lemma CacheThenGet(s: Store, url: string, content: string, stored: int, now: int)
    requires now - stored <= CacheExpiry
    ensures GetCachedPage(CachePage(s, url, content, stored), url, now) ==
      Lookup(Some(content), CachePage(s, url, content, stored))
  {
  }

  /** An entry is still served at exactly 24 hours and dropped one
      millisecond later. */
  lemma ExpiryBoundary(s: Store, url: string, content: string, stored: int)
    ensures GetCachedPage(CachePage(s, url, content, stored), url, stored + CacheExpiry).content == Some(content)
    ensures GetCachedPage(CachePage(s, url, content, stored), url, stored + CacheExpiry + 1).content.None?
  {
  }

  /** What the browser ends up showing after `navigateToPage`. */
  datatype Display = ShowSnapshot(content: string) | FullNavigation(url: string)

  /** The outcome of the network request, when one is made. */
  datatype Response = Fetched(text: string) | FetchFailed

  datatype Navigation = Navigation(display: Display, fetched: bool, store: Store)

  /** `navigateToPage(url)`: a cached non-empty snapshot is shown without a
      request; otherwise the page is fetched, cached at `arrival` and shown,
      and a failed request falls back to a normal browser navigation. An empty
      cached content is falsy and counts as a miss. */
  function NavigateToPage(s: Store, url: string, now: int, response: Response, arrival: int): (n: Navigation)
    ensures !n.fetched <==> (GetCachedPage(s, url, now).content.Some? && GetCachedPage(s, url, now).content.value != "")
    ensures !n.fetched ==> n.display == ShowSnapshot(GetCachedPage(s, url, now).content.value) && n.store == s
    ensures n.fetched && response.Fetched? ==>
      n.display == ShowSnapshot(response.text) && Find(n.store, url) == Some(Entry(response.text, arrival))
    ensures n.fetched && response.Fetched? ==>
      n.store == CachePage(GetCachedPage(s, url, now).store, url, response.text, arrival)
    ensures n.fetched && response.FetchFailed? ==>
      n.display == FullNavigation(url) && n.store == GetCachedPage(s, url, now).store
  {
    var lookup := GetCachedPage(s, url, now);
    if lookup.content.Some? && lookup.content.value != "" then
      Navigation(ShowSnapshot(lookup.content.value), false, lookup.store)
    else
      match response
      case Fetched(text) => Navigation(ShowSnapshot(text), true, CachePage(lookup.store, url, text, arrival))
      case FetchFailed => Navigation(FullNavigation(url), true, lookup.store)
  }

  /** A fresh snapshot written by an earlier navigation is shown again with
      no request. */
  lemma NavigateServesFreshSnapshot(s: Store, url: string, content: string, stored: int, now: int, response: Response, arrival: int)
    requires content != "" && now - stored <= CacheExpiry
    ensures NavigateToPage(CachePage(s, url, content, stored), url, now, response, arrival) ==
      Navigation(ShowSnapshot(content), false, CachePage(s, url, content, stored))
  {
  }

  // ----- page classification -----

  /** The logical page behind a path and query string. */
  datatype Page =
    | Home
    | RestaurantWithId(id: string)
    | RestaurantNoId
    | Cart
    | Profile
    | OrderPage
    | Checkout
    | Dish
    | Unknown

  /** The `pageName` string of a page. */
  function PageName(p: Page): string {
    match p
    case Home => "home"
    case RestaurantWithId(id) => "restaurant_" + id
    case RestaurantNoId => "restaurant"
    case Cart => "cart"
    case Profile => "profile"
    case OrderPage => "order"
    case Checkout => "checkout"
    case Dish => "dish"
    case Unknown => "unknown"
  }

  /** Two different pages never share a name, so they never share a scroll
      record. */
  lemma PageNameInjective(p: Page, q: Page)
    requires PageName(p) == PageName(q)
    ensures p == q
  {
    if p.RestaurantWithId? && q.RestaurantWithId? {
      assert p.id == PageName(p)[11..] == PageName(q)[11..] == q.id;
    }
  }

  /** A `key=value` part of a query string; a part without `=` has an empty
      value. */
  function ParamKey(part: string): string {
    if '=' in part then part[..IndexOf(part, '=')] else part
  }

  function ParamValue(part: string): string {
    if '=' in part then part[IndexOf(part, '=') + 1..] else ""
  }

  function FirstParam(parts: seq<string>, key: string): (r: Option<string>)
    ensures r.Some? ==> exists k :: 0 <= k < |parts| && ParamKey(parts[k]) == key && ParamValue(parts[k]) == r.value
    ensures r.None? <==> forall k | 0 <= k < |parts| :: ParamKey(parts[k]) != key
  {
    if |parts| == 0 then None
    else if ParamKey(parts[0]) == key then Some(ParamValue(parts[0]))
    else
      var r := FirstParam(parts[1..], key);
      assert forall k | 1 <= k < |parts| :: parts[k] == parts[1..][k - 1];
      r
  }

  /** `new URLSearchParams(search).get(key)`: the value of the first part
      whose key matches, without percent-decoding. */
  function QueryParam(search: string, key: string): Option<string> {
    var q := if |search| > 0 && search[0] == '?' then search[1..] else search;
    FirstParam(Split(q, '&'), key)
  }

  /** `getPageName()`: the first of the path tests that matches decides. */
  function GetPageName(path: string, search: string): (p: Page)
    ensures p == Home <==> Contains(path, "index.html")
    ensures p.RestaurantWithId? <==>
      && !Contains(path, "index.html") && Contains(path, "restaurant.html")
      && QueryParam(search, "id").Some? && QueryParam(search, "id").value != ""
    ensures p.RestaurantWithId? ==> QueryParam(search, "id") == Some(p.id)
    ensures p == RestaurantNoId <==>
      && !Contains(path, "index.html") && Contains(path, "restaurant.html")
      && (QueryParam(search, "id").None? || QueryParam(search, "id").value == "")
    ensures p == Cart <==>
      !Contains(path, "index.html") && !Contains(path, "restaurant.html") && Contains(path, "cart.html")
    ensures p == Profile <==>
      && !Contains(path, "index.html") && !Contains(path, "restaurant.html") && !Contains(path, "cart.html")
      && Contains(path, "profile.html")
    ensures p == OrderPage <==>
      && !Contains(path, "index.html") && !Contains(path, "restaurant.html") && !Contains(path, "cart.html")
      && !Contains(path, "profile.html") && Contains(path, "order.html")
    ensures p == Checkout <==>
      && !Contains(path, "index.html") && !Contains(path, "restaurant.html") && !Contains(path, "cart.html")
      && !Contains(path, "profile.html") && !Contains(path, "order.html") && Contains(path, "checkout.html")
    ensures p == Dish <==>
      Contains(path, "dish.html") && !Contains(path, "index.html") && !Contains(path, "restaurant.html") &&
      !Contains(path, "cart.html") && !Contains(path, "profile.html") && !Contains(path, "order.html") &&
      !Contains(path, "checkout.html")
    ensures p == Unknown <==>
      && !Contains(path, "index.html") && !Contains(path, "restaurant.html") && !Contains(path, "cart.html")
      && !Contains(path, "profile.html") && !Contains(path, "order.html") && !Contains(path, "checkout.html")
      && !Contains(path, "dish.html")
  {
    if Contains(path, "index.html") then Home
    else if Contains(path, "restaurant.html") then
      var id := QueryParam(search, "id");
      if id.Some? && id.value != "" then RestaurantWithId(id.value) else RestaurantNoId
    else if Contains(path, "cart.html") then Cart
    else if Contains(path, "profile.html") then Profile
    else if Contains(path, "order.html") then OrderPage
    else if Contains(path, "checkout.html") then Checkout
    else if Contains(path, "dish.html") then Dish
    else Unknown
  }

  /** A restaurant path with `?id=<id>` is the page `restaurant_<id>`,
      for any non-empty id without `&`. */
  lemma RestaurantPageName(path: string, id: string)
    requires Contains(path, "restaurant.html") && !Contains(path, "index.html")
    requires id != "" && '&' !in id
    ensures GetPageName(path, "?id=" + id) == RestaurantWithId(id)
    ensures PageName(GetPageName(path, "?id=" + id)) == "restaurant_" + id
  {
    IdParam(id);
  }

  /** The query `?id=<id>` carries `id` with that value. */
  lemma IdParam(id: string)
    requires '&' !in id
    ensures QueryParam("?id=" + id, "id") == Some(id)
  {
    var q := "id=" + id;
    assert ("?id=" + id)[1..] == q;
    assert forall k | 0 <= k < |q| :: q[k] == if k < 3 then "id="[k] else id[k - 3];
    assert '&' !in q;
    assert Split(q, '&') == [q];
    assert q[2] == '=' && q[..2] == "id";
    assert IndexOf(q, '=') == 2;
    assert ParamKey(q) == "id" && ParamValue(q) == id;
  }

  /** `/static/dish.html` is the dish page, whatever the query: no earlier
      test's file name occurs in it. */
  lemma DishPageExample(search: string)
    ensures GetPageName("/static/dish.html", search) == Dish
  {
    assert OccursAt("/static/dish.html", "dish.html", 8);
    NotContainsMissingChar("/static/dish.html", "index.html", 'x');
    NotContainsMissingChar("/static/dish.html", "restaurant.html", 'r');
    NotContainsMissingChar("/static/dish.html", "cart.html", 'r');
    NotContainsMissingChar("/static/dish.html", "profile.html", 'r');
    NotContainsMissingChar("/static/dish.html", "order.html", 'r');
    NotContainsMissingChar("/static/dish.html", "checkout.html", 'k');
  }

  // ----- scroll records and the restoring flag -----

  /** The session storage the scroll code uses and the `isRestoringPosition`
      flag. */
  datatype ScrollState = ScrollState(session: map<string, string>, restoring: bool)

  /** `scroll_<pageName>`. */
  function ScrollKey(p: Page): string {
    "scroll_" + PageName(p)
  }

  lemma ScrollKeyInjective(p: Page, q: Page)
    requires ScrollKey(p) == ScrollKey(q)
    ensures p == q
  {
    assert PageName(p) == ScrollKey(p)[7..];
    assert PageName(q) == ScrollKey(q)[7..];
    PageNameInjective(p, q);
  }

  /** Writing the current offset under the page's key. */
  function WriteOffset(st: ScrollState, p: Page, offset: nat): ScrollState {
    st.(session := st.session[ScrollKey(p) := IntToString(offset)])
  }

  /** The click handler: a link whose address starts with the app's own
      `/static/` prefix is intercepted; before navigating, the current offset
      is saved unless the page is a dish page. Other links pass through. */
  function OnLinkClick(st: ScrollState, href: string, origin: string, p: Page, offset: nat): (r: (bool, ScrollState))
    ensures !r.0 ==> r.1 == st
    ensures r.0 <==> StartsWith(href, origin + "/static/")
    ensures r.0 && p != Dish ==> r.1.session == st.session[ScrollKey(p) := IntToString(offset)]
    ensures p == Dish ==> r.1 == st
    ensures r.1.restoring == st.restoring
  {
    if !StartsWith(href, origin + "/static/") then (false, st)
    else if p == Dish then (true, st)
    else (true, WriteOffset(st, p, offset))
  }

  /** The debounced scroll handler: nothing while restoring, nothing on a
      dish page, otherwise the offset is saved. */
  function AutoSave(st: ScrollState, p: Page, offset: nat): (r: ScrollState)
    ensures st.restoring || p == Dish ==> r == st
    ensures !st.restoring && p != Dish ==> r.session == st.session[ScrollKey(p) := IntToString(offset)]
    ensures r.restoring == st.restoring
  {
    if st.restoring then st
    else if p == Dish then st
    else WriteOffset(st, p, offset)
  }

  /** What `restoreScrollPosition` decides to do. */
  datatype RestorePlan =
    | SkipDish          // dish page: no read, the page is shown at once
    | ShowNow           // nothing usable saved: the page is shown at once
    | RestoreTo(y: int) // flag set, scroll to `y` once content is ready

  /** `restoreScrollPosition()`: only a saved value that `parseInt` reads as
      a positive number starts a restore and sets the flag. */
  function PlanRestore(st: ScrollState, p: Page): (r: (RestorePlan, ScrollState))
    ensures p == Dish ==> r == (SkipDish, st)
    ensures r.0.RestoreTo? <==>
      p != Dish && ScrollKey(p) in st.session &&
      JsParseInt(st.session[ScrollKey(p)]).Some? && JsParseInt(st.session[ScrollKey(p)]).value > 0
    ensures r.0.RestoreTo? ==> r.0.y > 0 && JsParseInt(st.session[ScrollKey(p)]) == Some(r.0.y)
    ensures r.1.session == st.session
    ensures r.1.restoring == (st.restoring || r.0.RestoreTo?)
  {
    if p == Dish then (SkipDish, st)
    else if ScrollKey(p) !in st.session || st.session[ScrollKey(p)] == "" then (ShowNow, st)
    else
      var y := JsParseInt(st.session[ScrollKey(p)]);
      if y.Some? && y.value > 0 then (RestoreTo(y.value), st.(restoring := true))
      else (ShowNow, st)
  }

  /** The protection timer that ends a restore. */
  function EndRestore(st: ScrollState): (r: ScrollState)
    ensures !r.restoring && r.session == st.session
  {
    st.(restoring := false)
  }

  /** A positive offset saved on leaving a page is the offset restored on
      coming back; a zero offset restores nothing. */
  lemma SaveThenRestore(st: ScrollState, href: string, origin: string, p: Page, offset: nat)
    requires p != Dish && StartsWith(href, origin + "/static/")
    ensures offset > 0 ==> PlanRestore(OnLinkClick(st, href, origin, p, offset).1, p).0 == RestoreTo(offset)
    ensures offset == 0 ==> PlanRestore(OnLinkClick(st, href, origin, p, offset).1, p).0 == ShowNow
  {
    JsParseIntOfIntToString(offset);
  }

  /** Saving one page's offset leaves every other page's record alone. */
  lemma SaveIsolatesPages(st: ScrollState, p: Page, q: Page, offset: nat)
    requires p != q && ScrollKey(q) in st.session
    ensures ScrollKey(q) in AutoSave(st, p, offset).session
    ensures AutoSave(st, p, offset).session[ScrollKey(q)] == st.session[ScrollKey(q)]
  {
    if ScrollKey(p) == ScrollKey(q) {
      ScrollKeyInjective(p, q);
    }
  }

  /** While a restore is in progress scroll events save nothing; once the
      protection timer fires they save again. */
  lemma RestoreSuppressesAutoSave(st: ScrollState, p: Page, offset: nat)
    requires PlanRestore(st, p).0.RestoreTo?
    ensures AutoSave(PlanRestore(st, p).1, p, offset) == PlanRestore(st, p).1
    ensures AutoSave(EndRestore(PlanRestore(st, p).1), p, offset).session[ScrollKey(p)] == IntToString(offset)
  {
  }

  const MaxWaitAttempts: nat := 20

  /** The DOM probe at poll `k` (zero-based) found content; polls beyond
      the given observations find none. */
  predicate Observed(ready: seq<bool>, k: nat) {
    k < |ready| && ready[k]
  }

  /** `waitForContent()`: poll every 50 ms until content is seen or 20
      polls have been made, then resolve either way. */
  method WaitForContent(ready: seq<bool>) returns (attempts: nat, found: bool)
    ensures 1 <= attempts <= MaxWaitAttempts
    ensures found <==> Observed(ready, attempts - 1)
    ensures forall k | 0 <= k < attempts - 1 :: !Observed(ready, k)
    ensures !found ==> attempts == MaxWaitAttempts
  {
    attempts := 1;
    while !Observed(ready, attempts - 1) && attempts < MaxWaitAttempts
      invariant 1 <= attempts <= MaxWaitAttempts
      invariant forall k | 0 <= k < attempts - 1 :: !Observed(ready, k)
      decreases MaxWaitAttempts - attempts
    {
      attempts := attempts + 1;
    }
    found := Observed(ready, attempts - 1);
  }
}
