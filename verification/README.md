# Food-delivery mini-app: verified model of its rules

This project is a Dafny model of the rule-bearing core of a food-delivery
Telegram mini-app. The app has two halves: a set of browser helper scripts
and a FastAPI backend. Browser storage, the DOM, timers, the database and
Telegram are abstracted away. What is left is pure functions over
immutable maps, sequences and records, and time is an integer `now`.

- **Page cache** (`PageCache`). The cache is a persisted URL → snapshot
  store:
  - ten entries at most;
  - entries expire lazily after 24 hours;
  - when full, the first entry with the smallest timestamp is evicted.

  The module also holds the navigation decision that uses the store, the
  `getPageName` classifier, and the scroll-record rules:
  - the `scroll_<page>` key;
  - dish pages are excluded;
  - the `isRestoringPosition` flag suppresses auto-save;
  - `waitForContent` gives up after 20 polls.
- **Stand-alone scroll restore** (`SimpleScrollRestore`). Its own copy of
  the classifier, proved to agree with the page cache's copy. Unlike the
  page cache, it saves and restores on dish pages too.
- **Toast queue** (`ToastSystem`):
  - a FIFO of at most three toasts that evicts from the front;
  - a two-phase hide (immediate fade, removal 300 ms later);
  - the icon and message tables, and the auto-hide delay.
- **Optimistic cart** (`OptimisticUpdates`):
  - the `window.cart.items` transformations (merge-or-append and
    remove-by-id), with each slot holding a reference to a line object,
    so that one object pushed twice changes in both slots;
  - the counter element's shown total, which only some operations
    refresh, and the total sum;
  - the rollback records of `addToCart`.
- **Request guards** (`Auth`):
  - the `SUPER_ADMIN_IDS` parser;
  - header-before-query user id resolution;
  - the signed `admin_session` cookie, with HMAC and base64 as parameters;
  - the super-admin and user guards.
- **Admin endpoints** (`Admin`):
  - restaurant id generation and patching;
  - broadcast recipient selection and send counters;
  - media checks;
  - order statistics;
  - the dish cascade delete;
  - the image upload extension.
- **Reviews** (`Reviews`):
  - who may review;
  - one active review per (order, user) and one active app review per
    user;
  - the restaurant average;
  - the fields of the public review list.
- **Public collections** (`Public`):
  - enabled collections and items in `(sort_order, id)` order;
  - each item enriched with its restaurant or dish when that row exists.
- **Delivery watchdog** (`DeliveryWatchdog`): the per-order rule that marks
  an accepted order delivered once `max(eta, 5)` minutes have passed, and
  the pass as written, where a naive stored acceptance time makes the
  comparison with the aware `now` raise.
- **Profiles** (`Users`): the JSON-dict patch, the timezone patch, the
  typed profile patch, and the profile read.

Shared helpers:
- `Text`: substring search, split and join, `strip`, decimal printing, and
  the two integer parsers the source relies on (Python `int()` and
  JavaScript `parseInt(s, 10)`).
- `Seqs`: list comprehensions.
- `Sorting`: `ORDER BY sort_order, id`.
- `Wrappers`: `Option`, and the handler `Response`, which is a value, an
  HTTP error, or another exception.

Where the code and its own comments or design description disagree, the
model follows the code:
- `cachePage` evicts the oldest entry whenever ten keys are stored, even
  when the URL being written is already one of them. A full cache can
  therefore shrink to nine entries on an overwrite
  (`PageCache.CachePageEvictsOnOverwrite`).
- `navigateToPage` treats a cached empty page as a miss, because the empty
  string is falsy.
- `ToastSystem` defines `loading` twice. The second definition wins, so a
  "persistent" loading toast still hides after the default 3000 ms
  (`ToastSystem.Loading`).

## Model

| member | source | states |
|---|---|---|
| PageCache.Find | webapp/static/page-cache.js:43-45 | `cache[url]` is absent exactly when no stored key equals the url |
| PageCache.Delete | webapp/static/page-cache.js:49 | after `delete cache[url]` the url is absent, every other key keeps its entry, keys stay distinct, and exactly one slot goes when the url was present |
| PageCache.Put | webapp/static/page-cache.js:73-76 | after `cache[url] = e` the url maps to `e`, every other key keeps its entry, and the store grows only when the url was new |
| PageCache.PutKeepsDistinct | webapp/static/page-cache.js:73-76 | setting a key never makes a key appear twice in the object |
| PageCache.OldestIndex | webapp/static/page-cache.js:67-69 | the `reduce` picks a slot whose timestamp is minimal, and the first such slot in key order |
| PageCache.GetCachedPage | webapp/static/page-cache.js:41-55 | absent url: none, store unchanged; older than 24 h: none, and that key alone is deleted; otherwise the stored content, store unchanged |
| PageCache.CachePage | webapp/static/page-cache.js:60-80 | the url maps to `{content, now}`; capacity 10 is kept; below capacity no other key changes; at capacity the oldest key is evicted first even when the url already exists, and all other keys keep their entries |
| PageCache.CachePageKeepsSurvivors | webapp/static/page-cache.js:64-76 | any key other than the url that survives `cachePage` keeps its old entry |
| PageCache.CachePageEvictsOnOverwrite | webapp/static/page-cache.js:64-71 | overwriting a key of a full cache that is not the oldest still evicts, leaving nine entries |
| PageCache.CacheThenGet | webapp/static/page-cache.js:41-78 | round trip: a page cached at time t is returned by `getCachedPage` at any time up to t + 24 h, and the lookup changes nothing |
| PageCache.ExpiryBoundary | webapp/static/page-cache.js:48-54 | an entry is still served at exactly 24 h and dropped 1 ms later |
| PageCache.NavigateToPage | webapp/static/page-cache.js:104-125 | no request iff a non-empty fresh snapshot is cached, and then it is shown with the store unchanged; a fetched page is shown and the store is what `cachePage` leaves after the lookup, the new page under its url; a failed fetch falls back to normal navigation |
| PageCache.NavigateServesFreshSnapshot | webapp/static/page-cache.js:104-113 | a page cached earlier and still fresh is shown again with no network request |
| PageCache.PageNameInjective | webapp/static/page-cache.js:319-333 | different pages never produce the same `pageName` |
| PageCache.FirstParam | webapp/static/page-cache.js:323-324 | `URLSearchParams.get` yields the value of the first part with that key, and none iff no part has the key |
| PageCache.GetPageName | webapp/static/page-cache.js:319-333 | each of the nine pages iff its own test matches and every earlier test fails: home iff index.html; `restaurant_<id>` iff restaurant.html with a non-empty first `id`, and `restaurant` iff restaurant.html without one; then cart, profile, order, checkout and dish in that order; unknown iff none of the seven file names occurs |
| PageCache.RestaurantPageName | webapp/static/page-cache.js:322-326 | a restaurant path with `?id=<id>` (non-empty, no `&`) is the page `restaurant_<id>` |
| PageCache.IdParam | webapp/static/page-cache.js:323-324 | the query `?id=<id>` carries `id` with exactly that value |
| PageCache.DishPageExample | webapp/static/page-cache.js:319-331 | `/static/dish.html` is the dish page, whatever the query, because none of the six earlier file names occurs in it |
| PageCache.ScrollKeyInjective | webapp/static/page-cache.js:362 | different pages never share a `scroll_` key |
| PageCache.OnLinkClick | webapp/static/page-cache.js:348-372 | only links under `<origin>/static/` are intercepted; the offset is saved under the page's key except on dish pages; the restoring flag is untouched |
| PageCache.AutoSave | webapp/static/page-cache.js:376-396 | while restoring, or on a dish page, nothing is written; otherwise exactly the page's key receives the offset |
| PageCache.PlanRestore | webapp/static/page-cache.js:173-270 | dish pages read nothing; a restore starts, and the flag is set, iff the saved value parses to a positive integer, which is the target; session storage is never written |
| PageCache.EndRestore | webapp/static/page-cache.js:253-258 | the protection timer clears the flag and nothing else |
| PageCache.SaveThenRestore | webapp/static/page-cache.js:183-197 | a positive offset saved on leaving a non-dish page is the offset restored there; a zero offset restores nothing |
| PageCache.SaveIsolatesPages | webapp/static/page-cache.js:385-393 | saving one page's offset leaves every other page's record unchanged |
| PageCache.RestoreSuppressesAutoSave | webapp/static/page-cache.js:379-383 | scroll events save nothing during a restore and save again once the flag is cleared |
| PageCache.WaitForContent | webapp/static/page-cache.js:275-314 | between 1 and 20 polls; it stops at the first poll that sees content, or gives up at exactly 20 |
| SimpleScrollRestore.GetPageNameAgrees | webapp/static/simple-scroll-restore.js:10-24 | the second copy of `getPageName` classifies every path and query like the page cache's |
| SimpleScrollRestore.SaveScrollPosition | webapp/static/simple-scroll-restore.js:27-31 | exactly one key, `scroll_<page>`, now holds the offset, dish pages included; every other key is unchanged |
| SimpleScrollRestore.RestoreScrollPosition | webapp/static/simple-scroll-restore.js:34-45 | it scrolls iff the stored value parses to an integer > 0, and to that value; its result type has no room for a storage write |
| SimpleScrollRestore.Init | webapp/static/simple-scroll-restore.js:48-67 | nothing is installed iff a page cache exists; otherwise the saved position is restored at once |
| SimpleScrollRestore.InitRestoresSaved | webapp/static/simple-scroll-restore.js:48-67 | without the page cache, a page loaded after a positive offset was saved on it scrolls back to that offset; with the page cache nothing is installed |
| SimpleScrollRestore.SaveThenRestore | webapp/static/simple-scroll-restore.js:27-45 | a positive saved offset is restored as is; a zero one restores nothing |
| SimpleScrollRestore.DishPagesDiverge | webapp/static/simple-scroll-restore.js:27-31 | on a dish page this script writes and restores `scroll_dish`, while the page cache neither saves nor restores |
| ToastSystem.HideToast | webapp/static/toast-system.js:128-135 | a toast not in the container is a no-op; otherwise its removal is scheduled and nothing else changes yet |
| ToastSystem.FirstIndex | webapp/static/toast-system.js:141 | `indexOf` is the first position holding the toast |
| ToastSystem.RemoveFirst | webapp/static/toast-system.js:141-144 | an absent toast changes nothing; for a present one, the positions before its first occurrence keep their toasts and every later toast moves up by one |
| ToastSystem.RemoveAt | webapp/static/toast-system.js:143 | `splice(i, 1)` keeps the toasts before `i` in place and moves every later one up by one |
| ToastSystem.RemoveFirstDistinct | webapp/static/toast-system.js:141-144 | removal adds nobody, and in a list without repeats it removes exactly that toast |
| ToastSystem.RemoveAtMembers | webapp/static/toast-system.js:143 | every toast left after the splice was in the list |
| ToastSystem.RemoveAtDistinct | webapp/static/toast-system.js:143 | splicing a list without repeats keeps it without repeats and drops the spliced toast |
| ToastSystem.FireRemoval | webapp/static/toast-system.js:135-145 | the delayed half detaches the element and removes that toast from the queue, the others in order; it preserves the queue invariant |
| ToastSystem.AddToast | webapp/static/toast-system.js:102-123 | below three, the toast is appended; at three, the front toast is shifted out, its hide begins, and the new toast goes to the back; the bound of 3 is preserved |
| ToastSystem.Clear | webapp/static/toast-system.js:296-302 | `clear()` leaves no tracked and no attached toast |
| ToastSystem.HideEach | webapp/static/toast-system.js:287-291 | hiding a list of attached toasts schedules their removals in list order and changes nothing else |
| ToastSystem.HideAll | webapp/static/toast-system.js:287-291 | every tracked toast is scheduled for removal in queue order; the queue and the container are untouched until the removals fire |
| ToastSystem.FiresEmptyQueue | webapp/static/toast-system.js:135-145 | firing the removals of the whole queue, front first, empties it |
| ToastSystem.HideAllThenFires | webapp/static/toast-system.js:287-291 | `hideAll()` schedules exactly the tracked toasts, and once those removals fire no toast is tracked |
| ToastSystem.FireRemovalIdempotent | webapp/static/toast-system.js:135-145 | a second removal of the same toast changes nothing |
| ToastSystem.RunPreservesValid | webapp/static/toast-system.js:116-122 | any interleaving of adds, hides, removals and clears keeps at most three distinct tracked toasts, all attached |
| ToastSystem.HideDelay | webapp/static/toast-system.js:46 | the auto-hide delay is the duration when it is truthy, else 3000 |
| ToastSystem.IconForType | webapp/static/toast-system.js:88-97 | success, error, warning, info and loading each get their own icon; any other type gets the info icon |
| ToastSystem.IconsDistinguishKnownTypes | webapp/static/toast-system.js:89-95 | the five known types have five different icons |
| ToastSystem.OrderStatusChanged | webapp/static/toast-system.js:236-247 | the five known statuses map to their fixed texts, anything else to the generic text quoting it; an info toast for 3000 ms |
| ToastSystem.UnknownStatusesDistinct | webapp/static/toast-system.js:245 | the generic text tells unknown statuses apart |
| ToastSystem.CartAdded | webapp/static/toast-system.js:201-207 | a 2000 ms success toast whose text mentions the count only when it is above 1 |
| ToastSystem.CartAddedNamesDish | webapp/static/toast-system.js:201-207 | at the same quantity, different dish names give different texts |
| ToastSystem.Loading | webapp/static/toast-system.js:280-282 | the overriding `loading` passes no duration, so the toast hides after 3000 ms |
| ToastSystem.Show | webapp/static/toast-system.js:41-52 | `show` adds the toast at the back and schedules its hide after the truthy duration or else 3000 ms, a positive delay unless a negative duration is given |
| ToastSystem.ShowThenFire | webapp/static/toast-system.js:41-52 | below three toasts, a shown toast whose removal fires leaves the queue and the container as they were before `show` |
| OptimisticUpdates.FindMergeable | webapp/static/optimistic-updates.js:177-180 | the first line with the same dish and no chosen options, or none iff no such line exists |
| OptimisticUpdates.SetQty | webapp/static/optimistic-updates.js:185 | `existingItem.qty += quantity` changes the object in every slot that holds it and no other slot |
| OptimisticUpdates.FreshRef | webapp/static/optimistic-updates.js:193-198 | the new line is an object no slot holds yet |
| OptimisticUpdates.ShowQuantity | webapp/static/optimistic-updates.js:223-234 | only a present item element gets the new quantity text |
| OptimisticUpdates.QtySumAppend | webapp/static/optimistic-updates.js:275 | the quantity sum is additive over concatenation |
| OptimisticUpdates.QtySumSetQty | webapp/static/optimistic-updates.js:185 | changing an object's quantity changes the sum once per slot that holds it |
| OptimisticUpdates.RefreshCounter | webapp/static/optimistic-updates.js:272-279 | without `window.cart` the counter is left as it was; with it, the counter shows the sum of the slots' quantities and is displayed iff positive |
| OptimisticUpdates.RefreshCounterIdempotent | webapp/static/optimistic-updates.js:272-279 | refreshing twice is refreshing once |
| OptimisticUpdates.AddCartItemUI | webapp/static/optimistic-updates.js:239-248 | with `window.cart` set the item is pushed once more and the counter rises to the new sum; without it nothing changes |
| OptimisticUpdates.UpdateCartUI | webapp/static/optimistic-updates.js:172-207 | merge: the first mergeable object grows by the quantity in every slot holding it, only its element's text is refreshed, and `{update, id, oldQty}` is returned; otherwise a new `temp_<now>` object is pushed twice and the counter refreshed when `window.cart` exists, and `{add, id, item}` is returned; slots holding one object keep showing the same line |
| OptimisticUpdates.UpdateCartUIKeepsOptionLines | webapp/static/optimistic-updates.js:177-180 | lines with chosen options are never merged into, and no line goes away |
| OptimisticUpdates.RepeatedAddSharesLine | webapp/static/optimistic-updates.js:185-203 | adding dish 7 twice to an empty cart leaves one object with quantity 2 in two slots, a cart sum of 4, and a counter still showing 2 |
| OptimisticUpdates.CounterAfterMerge | webapp/static/optimistic-updates.js:182-190 | a merge leaves the counter as it was, while the cart sum rises by the quantity once per slot holding the merged object |
| OptimisticUpdates.CounterAfterAppend | webapp/static/optimistic-updates.js:200-203 | an append refreshes the counter to the old sum plus twice the quantity |
| OptimisticUpdates.CounterAfterAdd | webapp/static/optimistic-updates.js:182-206 | an append refreshes the counter; a merge leaves it stale while the cart sum grows |
| OptimisticUpdates.Without | webapp/static/optimistic-updates.js:261 | the filter keeps only lines with another id, all from the input |
| OptimisticUpdates.WithoutAppend | webapp/static/optimistic-updates.js:261 | the filter keeps the relative order of the rest |
| OptimisticUpdates.RemoveCartItemUI | webapp/static/optimistic-updates.js:253-267 | the element and every line with that id go, the rest stay in order, and the counter shows the new sum |
| OptimisticUpdates.RollbackCartUI | webapp/static/optimistic-updates.js:212-218 | rollback of an add removes the temp line; rollback of an update only resets the displayed quantity |
| OptimisticUpdates.AddThenRollback | webapp/static/optimistic-updates.js:212-218 | rolling back an append restores the cart and the item elements exactly, both copies included, with the counter refreshed |
| OptimisticUpdates.MergeRollbackKeepsQuantity | webapp/static/optimistic-updates.js:213-214 | after rolling back a merge, the page shows the old number but the cart line keeps the increased qty |
| OptimisticUpdates.Price | webapp/static/optimistic-updates.js:288-289 | a missing map, a missing dish or a zero price counts as 0 |
| OptimisticUpdates.CartTotalAppend | webapp/static/optimistic-updates.js:287-290 | the total is additive over concatenation |
| OptimisticUpdates.CartTotalUniformPrice | webapp/static/optimistic-updates.js:284-294 | the total is price × quantity over the lines; with one price p it is p times the quantity sum, and 0 without a price map |
| OptimisticUpdates.AddToCartAsWritten | webapp/static/optimistic-updates.js:15-61 | as written: the optimistic change stays, and the promise rejects with a ReferenceError before any rollback or error toast |
| OptimisticUpdates.AddToCartAsWrittenKeepsFailedLine | webapp/static/optimistic-updates.js:53-60 | a failed add of a new dish leaves two copies of the line in the cart |
| OptimisticUpdates.AddToCart | webapp/static/optimistic-updates.js:22-60 | corrected: success keeps the optimistic state; failure rolls it back and shows the error toast |
| OptimisticUpdates.FailedAddRestoresCart | webapp/static/optimistic-updates.js:56-57 | with the rollback in scope, a failed add of a new dish leaves the cart as it was, with the counter refreshed |
| Auth.LoadSuperAdminIds | app/deps/auth.py:13-24 | an id is loaded iff some comma-separated part of the variable, once stripped, reads as it with `int()`; empty and malformed parts are skipped |
| Auth.IdsOfMember | app/deps/auth.py:15-24 | an id is collected iff some part reads as it |
| Auth.IntNamesItself | app/deps/auth.py:17-21 | a printed integer holds no comma and strips and parses back to itself |
| Auth.LoadSuperAdminIdsOfList | app/deps/auth.py:13-24 | a `SUPER_ADMIN_IDS` written as a comma list of ids loads as exactly those ids |
| Auth.ResolveUserId | app/deps/auth.py:36-42 | the header wins; otherwise a non-empty `uid` read with `int()`; an absent, empty or malformed one gives none |
| Auth.ResolveUserIdFromQuery | app/deps/auth.py:36-42 | with no header, a `uid` holding a printed id resolves to that id |
| Auth.FieldAbsent | app/deps/auth.py:97-98 | a key no `k=v` part carries has no field |
| Auth.LaterFieldWins | app/deps/auth.py:97 | a later duplicate key overrides an earlier one |
| Auth.PartWithoutEqualsIgnored | app/deps/auth.py:97 | a part without `=` is ignored wherever it sits |
| Auth.KeyValueOf | app/deps/auth.py:97 | `split("=", 1)` of `key=value` with no `=` in the key gives back key and value |
| Auth.SplitThree | app/deps/auth.py:96 | three parts without `&`, joined by `&`, split back into the three |
| Auth.IsValidAdminSession | app/deps/auth.py:88-105 | valid iff role is `super_admin`, exp (default "0") parses and is in the future, and sig equals the HMAC of `role=<role>&exp=<exp>`; an unreadable exp gives false |
| Auth.ValidWhenFieldsMatch | app/deps/auth.py:98-103 | with role, exp and matching signature in place, the cookie is valid exactly while exp > now |
| Auth.IssuedTokenValidUntilExpiry | app/deps/auth.py:96-103 | a cookie built as `role=super_admin&exp=<exp>&sig=<hmac>` is valid iff exp > now |
| Auth.RequireSuperAdmin | app/deps/auth.py:32-56 | a listed id passes as itself; anyone else gets 0 iff a non-empty cookie validates, and 403 otherwise |
| Auth.RequireSuperAdminMonotone | app/deps/auth.py:32-56 | adding ids to `SUPER_ADMIN_IDS` never refuses a request that was let through |
| Auth.RequireUserIdAsWritten | app/deps/auth.py:59-85 | as written: 401 iff no id resolves; otherwise the id is returned, blocked or not |
| Auth.BlockedUserPassesAsWritten | app/deps/auth.py:75-85 | a blocked user gets through the guard as written |
| Auth.RequireUserId | app/deps/auth.py:59-85 | corrected: 401 iff no id resolves; 403 `user_blocked` iff the user is blocked; otherwise the id |
| Auth.RequireUserIdDiffersOnBlocked | app/deps/auth.py:75-83 | the two versions differ exactly on blocked users |
| Admin.MaxId | app/routers/admin.py:72 | the largest id bounds every row and is some row's id |
| Admin.NextRestaurantId | app/routers/admin.py:72-73 | the new id exceeds every existing id; it is 1 on an empty table, otherwise max + 1 |
| Admin.CreateRestaurant | app/routers/admin.py:69-91 | one row is appended with a fresh id, disabled, rating 0, and the body's fields; old rows are unchanged |
| Admin.CreateKeepsIdsDistinct | app/routers/admin.py:72-77 | creation keeps ids unique, and consecutive creations get consecutive ids |
| Admin.NumPatch | app/routers/admin.py:100-105 | an integer is taken; a text is converted, or dropped when `int()` fails |
| Admin.ApplyPatch | app/routers/admin.py:106-108 | only the fields present in the patch change; id and rating never change |
| Admin.FindRestaurant | app/routers/admin.py:96 | the first row with the id, none iff no row has it |
| Admin.UpdateRestaurant | app/routers/admin.py:94-120 | 404 iff the id is unknown; otherwise only that row changes, by the patch |
| Admin.UpdateRestaurantIdempotent | app/routers/admin.py:99-108 | an empty patch changes nothing, and applying a patch twice is applying it once |
| Admin.GetTargetUsers | app/routers/admin.py:158-187 | `all`, `clients` and `restaurants` pick exactly the unblocked users, the unblocked non-admins and the unblocked admins, one entry per selected row, so the count is the number of selected users; any other type gives [] |
| Admin.TargetsPartition | app/routers/admin.py:158-187 | clients and restaurant admins partition `all`: each unblocked user is in exactly one, and the two lengths add up |
| Admin.SendAll | app/routers/admin.py:216-244 | every recipient is tried once; sent + failed equals the number of recipients |
| Admin.Broadcast | app/routers/admin.py:190-263 | no recipients gives the error iff the list is empty, before any send; no bot gives the error; the ok path has sent + failed = total > 0 |
| Admin.BroadcastDelivery | app/routers/admin.py:218-234 | photo or video iff that media type comes with a non-empty file id; otherwise plain text |
| Admin.MediaDelivery | app/routers/admin.py:302-318 | no media or no content type gives text only; an empty file or one over 20 MB is refused and every size from 1 byte to 20 MB is accepted; `image/*` gives photo, `video/*` video, any other type the file note |
| Admin.MediaAcceptsSmaller | app/routers/admin.py:302-318 | an accepted attachment's type decides its delivery: the same type at any smaller non-empty size goes out the same way |
| Admin.BroadcastWithMedia | app/routers/admin.py:272-384 | no recipients gives the recipient error, then a missing bot gives "Bot not initialized" whatever the media, then the media checks; the ok path sends to all and its counters add up |
| Admin.SameDayIsSameMonth | app/routers/admin.py:468-473 | the same date implies the same month |
| Admin.Summarize | app/routers/admin.py:477-484 | the number and price sum of the matching orders, and how many of those are cancelled and how many modified; cancelled + modified ≤ orders |
| Admin.FilterSplitStatus | app/routers/admin.py:482-483 | no order counts as both cancelled and modified |
| Admin.Aggregate | app/routers/admin.py:476-488 | today and month summaries over the same-day and same-month orders, each with cancelled + modified ≤ orders |
| Admin.TodayWithinMonth | app/routers/admin.py:485-487 | today's order count never exceeds the month's |
| Admin.FindDish | app/routers/admin.py:828 | the first dish with the id, none iff there is none |
| Admin.DeleteDish | app/routers/admin.py:825-854 | 404 iff the dish is unknown; afterwards no option group, option, cart line or order line refers to the dish, and only matching rows are removed |
| Admin.UploadExtension | app/routers/admin.py:684-692 | a non-image type gives 400 and a missing one fails; the extension is the text after the last `.`, or `jpg` without a `.` |
| Admin.UploadKeepsExtension | app/routers/admin.py:691 | `<stem>.<ext>` keeps `ext` whatever dots the stem holds |
| Reviews.StoredComment | app/routers/reviews.py:65 | a missing comment is stored as "" |
| Reviews.CreateReview | app/routers/reviews.py:50-74 | 422 for a rating outside 1..5; 404 unless the user owns the order; 400 when an active review exists; stored iff none of these, with the comment defaulted |
| Reviews.CreateReviewKeepsOneActive | app/routers/reviews.py:56-59 | creation preserves at most one active review per (order, user) |
| Reviews.CreateReviewTwiceRefused | app/routers/reviews.py:57-59 | repeating a successful request gives 400 |
| Reviews.CreateAppReview | app/routers/reviews.py:94-110 | 422 for a bad rating; 400 iff the user already has an active app review; otherwise one row is appended |
| Reviews.CreateAppReviewKeepsOneActive | app/routers/reviews.py:97-100 | creation preserves at most one active app review per user |
| Reviews.RatingSumBounds | app/routers/reviews.py:32 | n ratings in 1..5 sum to between n and 5n |
| Reviews.AverageRating | app/routers/reviews.py:17-25 | 0 with no active reviews, otherwise the mean of the active ratings |
| Reviews.AverageRatingInRange | app/routers/reviews.py:17-25 | with valid ratings, a reviewed restaurant's average lies in [1, 5] |
| Reviews.UpdateRestaurantRating | app/routers/reviews.py:14-26 | the first restaurant row with the id gets the new average; no row without the id changes; an unknown id changes nothing |
| Reviews.RatingAfterCreate | app/routers/reviews.py:71-72 | after a review is created, the reviewed restaurant's row (the first with its id) stores the average over one more active review, and that average lies in [1, 5] when the earlier ratings are valid |
| Reviews.UserName | app/routers/reviews.py:161-162 | the user's non-empty name, else "Аноним"; never empty |
| Reviews.UserNameIdempotent | app/routers/reviews.py:161-162 | a shown name is shown unchanged |
| Reviews.OrderedItems | app/routers/reviews.py:165-166 | none iff the order has no items; otherwise the `name xqty` texts joined by ", " |
| Reviews.OrderedItemsSingle | app/routers/reviews.py:166 | a single item is written alone with its quantity |
| Reviews.OrderedItemsAppend | app/routers/reviews.py:165-166 | the text of two item lists one after the other is their two texts joined by ", " |
| Reviews.TotalReviews | app/routers/reviews.py:181 | the number of the restaurant's active reviews |
| Reviews.DeletedReviewsNotCounted | app/routers/reviews.py:132-135 | deleting a review never raises the count, and deleting an active one lowers it by one |
| Public.RestaurantRating | app/routers/public.py:11-17 | the average of the restaurant's active reviews, 0 with none; with valid ratings it is 0 or lies in [1, 5] |
| Public.Enrich | app/routers/public.py:33-83 | the seven base fields always; `restaurant` iff that restaurant exists, holding the card of the first restaurant row with that id; `dish` iff the dish exists, holding the first such dish's id, name, price and description, plus the card of its restaurant iff that exists too |
| Public.ItemsOf | app/routers/public.py:27-30 | the collection's enabled items, each as often as in the table, sorted by (sort_order, id) |
| Public.EnabledCollections | app/routers/public.py:23 | the enabled collections, each as often as in the table, sorted by (sort_order, id) |
| Public.GetPublicCollections | app/routers/public.py:20-93 | one entry per enabled collection in order, with that collection's id, name, description and image, each listing every enabled item of it in order, enriched |
| Sorting.SortBy | app/routers/public.py:23 | the result is sorted by the key and is a permutation of the input |
| Sorting.SortedUnique | app/routers/public.py:23 | with distinct (sort_order, id) keys the sorted order is unique, so any correct sort gives the same list |
| Seqs.Filter | app/routers/admin.py:478 | the rows the test keeps, all from the input; all kept when every row passes |
| Text.Split | app/deps/auth.py:16 | `split(sep)` gives at least one part, no part holds the separator, and joining the parts with it gives back the text |
| Text.SplitOfJoin | app/deps/auth.py:16 | splitting a joined list gives the list back when no part holds the separator |
| Text.JoinAppend | app/routers/reviews.py:166 | `sep.join` of two non-empty lists one after the other puts one separator between their joins |
| Text.Strip | app/deps/auth.py:17 | `strip()` returns the middle of its input between a white-space prefix and a white-space suffix, and the result neither starts nor ends with white space |
| Text.PyIntOfIntToString | app/deps/auth.py:21 | `int()` reads back every integer `str()` prints |
| Text.JsParseIntOfIntToString | webapp/static/page-cache.js:192 | `parseInt(s, 10)` reads back every integer `toString()` writes |
| Text.AfterLast | app/routers/admin.py:691 | `split('.')[-1]` is the text after the last `.`, with no `.` in it |
| Text.AfterLastUnique | app/routers/admin.py:691 | the text after the last separator is determined by the text |
| DeliveryWatchdog.EffectiveDelay | app/main.py:94 | `max(eta, 5)`: never below 5 and never below the estimate |
| DeliveryWatchdog.Tick | app/main.py:91-98 | a due order becomes delivered; any other order is unchanged |
| DeliveryWatchdog.WatchdogPass | app/main.py:88-100 | corrected, one clock for every acceptance time: every order is ticked in place, and the pass commits iff some order was due |
| DeliveryWatchdog.PassAsWritten | app/main.py:86-102 | as written: the pass raises TypeError iff some accepted order with a non-zero estimate has a naive acceptance time; otherwise it is the corrected pass |
| DeliveryWatchdog.StoredAfter | app/main.py:88-102 | a raising pass stores nothing; otherwise the ticked orders are stored |
| DeliveryWatchdog.NaiveStampBlocksDelivery | app/main.py:86-102 | an order accepted an hour ago with a 30-minute estimate and a naive acceptance time is due, yet the pass raises and it stays accepted |
| DeliveryWatchdog.NaiveStampStallsForever | app/main.py:82-103 | while a naive candidate is stored, every later pass stores nothing, so no order is ever delivered |
| DeliveryWatchdog.AwareStampsPassAsIntended | app/main.py:86-100 | when every acceptance time is aware, the pass as written stores the ticked orders |
| DeliveryWatchdog.OnlyAcceptedChange | app/main.py:89-92 | only accepted orders change, and only to delivered; without `accepted_at` or with a zero estimate nothing changes |
| DeliveryWatchdog.DeliveredIffDelayPassed | app/main.py:94-96 | delivered iff at least 5 minutes and at least the estimate have passed since acceptance |
| DeliveryWatchdog.NeverBeforeFiveMinutes | app/main.py:93-95 | never within five minutes of acceptance |
| DeliveryWatchdog.TickIdempotent | app/main.py:89-97 | a second pass at the same time changes nothing and commits nothing |
| DeliveryWatchdog.DueStaysDue | app/main.py:95 | once due, an order stays due at every later time |
| Users.Ensure | app/routers/users.py:32 | the user's row, created when absent; an existing table is left as it is |
| Users.PatchFromDict | app/routers/users.py:48-57 | each of the five keys present in the body replaces its column, null included; absent keys and the id are kept |
| Users.PatchFromDictIgnoresOtherKeys | app/routers/users.py:48-57 | a body with none of the five keys changes nothing |
| Users.PatchFromDictIdempotent | app/routers/users.py:48-57 | applying the same body twice is applying it once |
| Users.UpdateUserProfileAsWritten | app/routers/users.py:36-60 | as written: an unknown user raises NameError, because `HTTPException` is never imported; otherwise the patch is applied |
| Users.UpdateUserProfile | app/routers/users.py:36-60 | corrected: 404 iff the user is unknown; otherwise only that row changes, and only in the keys the body carries |
| Users.UpdateUserProfileVersionsAgree | app/routers/users.py:43-45 | the two versions agree exactly when the user exists |
| Users.UpdateUserTimezoneAsWritten | app/routers/users.py:62-78 | as written: NameError iff the user is unknown or `timezone` is missing, and then nothing changes |
| Users.UpdateUserTimezone | app/routers/users.py:62-78 | corrected: 404 for an unknown user, 400 without `timezone`; otherwise only that user's timezone changes, and the value is returned |
| Users.TimezoneIsProfilePatch | app/routers/users.py:73-76 | setting the timezone equals the general patch with only that key |
| Users.UpdateProfile | app/routers/users.py:80-92 | creates the user when absent; non-None fields replace their columns; timezone and other users are untouched |
| Users.UpdateProfileNeverClears | app/routers/users.py:83-90 | the typed patch cannot clear a column, while the dict patch writes null |
| Users.GetProfile | app/routers/users.py:30-33 | the stored row's six fields, the row being created when absent |
| Users.ProfileAfterUpdate | app/routers/users.py:30-92 | a profile read after a typed update shows the new value and creates nothing more |

## Left out

- DOM work is left out: `showCachedPage` (HTML parsing, script re-execution, `pushState`), the overlays, the progress bar, animations and real scrolling. Offsets are natural numbers.
- Timers are left out: the re-check timeouts of `restoreScrollPosition`, debounce, fallback timeouts, and the 100 ms and 300 ms delays. The delayed toast removal is an explicit `Fire` event, and `waitForContent` keeps only its 20-poll bound.
- Storage is abstracted: `localStorage` and `sessionStorage` are values, and a failed read or write is an empty or unchanged map. Storage quotas are not modelled.
- The network is abstracted: `fetch` is a given response, and `loadAndCachePage`, preloading, `loadCartAndSync`, `updateCartQuantity`, `removeFromCart` and `updateOrderStatus` are not modelled. Those three cart and order operations are DOM and network round trips outside the `window.cart` transformations.
- PageCache.QueryParam: no percent-decoding and no `+`-as-space. An escaped `id` therefore names its page in escaped form; restaurant ids are plain integers, so this does not arise in the app's own links.
- PageCache.Find: a URL naming an `Object.prototype` property (`constructor`, …) is treated as absent. In the source such a key would look present.
- ToastSystem.IconForType: a type naming an `Object.prototype` property (`constructor`, `toString`, …) would return that inherited function in the source. The model gives it the info icon. `ToastSystem.OrderStatusChanged` treats such statuses the same way.
- Text.PyInt: Python `int()` also accepts `_` separators and non-ASCII digits. `strip()` also removes the ASCII separators `\x1c` to `\x1f` and Unicode white space. Only ASCII digits and the six ASCII white-space characters (space, tab, newline, carriage return, vertical tab, form feed) are modelled.
- Text.JsParseInt: `parseInt` skips Unicode white space too. Only ASCII white space is modelled.
- Auth: HMAC-SHA256 and base64 decoding are uninterpreted parameters, and `os.environ` is an argument.
- Auth: `X-Telegram-User-Id` is already an integer. FastAPI refuses a malformed header with 422 before the guard runs, and that is not modelled.
- Auth.RequireUserId: a database failure inside the blocked check is also swallowed in the source. The database is not modelled, so the corrected guard has no such path.
- Admin: `round(..., 1)` of averages is not modelled. Averages are exact rationals.
- Admin: the Telegram sends, `send_admin_message` and the 50 ms sleeps are reduced to one success flag per recipient.
- Admin.BroadcastWithMedia: the outer `except` that turns any exception into an error status is not modelled.
- Admin.NumPatch: the request model declares the numeric fields as integers, so the framework rejects or converts texts before the handler runs. The text branch is modelled as the handler writes it, but cannot be reached.
- Admin: the other endpoints (listing, blocking, admin binding, categories, dish create and update, statistics per restaurant and per user, review deletion, the admin code) are not modelled. They are plain database reads and writes with no rule beyond their query.
- Reviews: `func.avg` over SQL rows is the exact mean, and the rounding to one decimal is not modelled. The read-only endpoints `get_review_by_order`, `get_app_reviews` and `get_my_app_review` are single queries and are not modelled.
- Public.RestaurantRating: the rounding to one decimal is not modelled.
- DeliveryWatchdog: a stored acceptance time is seconds on the Moscow clock plus a flag saying whether it carries a time zone. Whether the `accepted_at` column returns aware or naive values depends on its declaration in app/models.py and on the database; app/models.py is not part of this model, so both are allowed. The `while True` loop and the 10-second sleep are not modelled; a raising pass is a `Raised` value that stores nothing.
- Users: JSON payload values are text or null. Numbers and other JSON values are not modelled.
- Users: `activate_user` is a call into `ensure_user`, and app/store.py is not part of this model. The row `ensure_user` creates is taken to have every profile column unset; the migration's `UTC+9` default for `timezone` is not modelled. Whether that row belongs to the request's own session is also unknown.
- ToastSystem.CartAdded: the quantity's text in the message is a parameter, not the printed number.
- OptimisticUpdates.AddToCart: on success the source calls `updateCartWithServerData`, which the class never defines. The corrected version keeps the optimistic state there, because the server data it would merge is not modelled.
- OptimisticUpdates: `addToCart`'s feedback toasts are reduced to one flag, and the `onSuccess`/`onError` callbacks are left out.
- OptimisticUpdates: the `.cart-counter` element is taken to be present, so `updateCartCounter` always writes it when `window.cart` is set. The `.cart-total` element that `updateCartTotal` writes is not state of the model; `CartTotal` is the value it would show.
- Micro-animations, loading skeletons, page transitions, preloading, migrations, database setup and the selections router are left out. They hold no rules beyond DOM, timer, fetch or schema plumbing.

## Findings

| source | as written | input that shows it | evidently intended | confidence | as-written member | corrected member |
|---|---|---|---|---|---|---|
| app/deps/auth.py:75-85 | the 403 for a blocked user is raised inside `try` and caught by `except Exception: pass`, so the guard returns the id | a user row with `is_blocked = True`, header id 5 | blocked users are refused with 403 `user_blocked` (the comment at line 75 says so) | high, not executed | Auth.RequireUserIdAsWritten | Auth.RequireUserId |
| app/routers/users.py:44-45 | `HTTPException` is not imported (lines 1-8), so the 404 path raises NameError, a 500 response | PATCH /users/me for an id with no user row | 404 "User not found" | high, not executed | Users.UpdateUserProfileAsWritten | Users.UpdateUserProfile |
| app/routers/users.py:77-78 | same missing import: a body without `timezone` raises NameError instead of 400 | PATCH /users/timezone with body `{}` for an existing user | 400 "Timezone is required" | high, not executed | Users.UpdateUserTimezoneAsWritten | Users.UpdateUserTimezone |
| app/main.py:86-102 | `now` is time-zone aware, while `accepted_at` from the default SQLite database (app/db.py:6) comes back naive; `now >= accepted_at + ...` then raises TypeError, which the `except Exception: pass` swallows, so the pass never commits | an accepted order with `eta_minutes = 30` whose naive `accepted_at` is an hour old | the order is marked delivered once its delay has passed | medium, not executed: the column type is declared in app/models.py, which is not part of this model | DeliveryWatchdog.PassAsWritten | DeliveryWatchdog.WatchdogPass |
| webapp/static/optimistic-updates.js:24-57 | `rollbackData` is a `const` of the `try` block, so the `catch` block's reference throws a ReferenceError: no rollback and no error toast | `addToCart(7, 1)` with an empty cart and a failing request | the optimistic change is rolled back and an error toast is shown | high, not executed | OptimisticUpdates.AddToCartAsWritten | OptimisticUpdates.AddToCart |
