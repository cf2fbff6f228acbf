/** The in-memory side of the optimistic cart: `window.cart.items` (absent
    when `window.cart` is not set), the quantities shown in the page's item
    elements, what the cart counter element shows, the merge-or-append of an
    added dish, removal by id, the counter and total sums, and the rollback
    records. Requests to the server are reduced to whether they succeed.

    A slot of `items` holds a reference to a line object, not a copy: the
    same object may sit in two slots, and a change made to it through one
    slot shows in every slot that holds it. Each line therefore carries
    `ref`, the identity of its object. */
module OptimisticUpdates {
  import opened Wrappers

  /** A server-assigned id, or the `temp_<now>` id of an item added before
      the server answered. The two never compare equal. */
  datatype ItemId = ServerId(n: int) | TempId(stamp: int)

  /** The identity of a line object. */
  type Ref = nat

  /** A cart line as seen through one slot; a missing `chosen_options` is
      the empty list. */
  datatype CartItem = CartItem(ref: Ref, id: ItemId, dishId: int, qty: int, options: seq<int>)

  /** Slots holding the same object show the same line: the states the
      page can reach. */
  predicate Coherent(items: seq<CartItem>) {
    forall i, j | 0 <= i < |items| && 0 <= j < |items| && items[i].ref == items[j].ref :: items[i] == items[j]
  }

  /** What the `.cart-counter` element shows: its text and whether it is
      displayed. */
  datatype Counter = Counter(total: int, visible: bool)

  /** `window.cart` (`None` when unset), the quantity text of each item
      element present in the page, and the cart counter element. */
  datatype CartUi = CartUi(cart: Option<seq<CartItem>>, shown: map<ItemId, int>, counter: Counter)

  /** What `updateCartUI` hands back for a later rollback. */
  datatype Rollback = Update(itemId: ItemId, oldQuantity: int) | Add(itemId: ItemId, item: CartItem)

  /** A line an added dish may be merged into: same dish, no options. */
  predicate Mergeable(item: CartItem, dishId: int) {
    item.dishId == dishId && |item.options| == 0
  }

  /** `items.find(...)`: the position of the first mergeable line. */
  function FindMergeable(items: seq<CartItem>, dishId: int): (r: Option<nat>)
    ensures r.None? <==> forall k | 0 <= k < |items| :: !Mergeable(items[k], dishId)
    ensures r.Some? ==> r.value < |items| && Mergeable(items[r.value], dishId)
    ensures r.Some? ==> forall k | 0 <= k < r.value :: !Mergeable(items[k], dishId)
  {
    if |items| == 0 then None
    else if Mergeable(items[0], dishId) then Some(0)
    else
      match FindMergeable(items[1..], dishId)
      case None => None
      case Some(j) => Some(j + 1)
  }

  /** `obj.qty = q` on the object `obj`: every slot holding it shows the new
      quantity, the other slots are untouched. */
  function SetQty(items: seq<CartItem>, obj: Ref, q: int): (r: seq<CartItem>)
    ensures |r| == |items|
    ensures forall k | 0 <= k < |items| :: r[k] == if items[k].ref == obj then items[k].(qty := q) else items[k]
  {
    seq(|items|, k requires 0 <= k < |items| => if items[k].ref == obj then items[k].(qty := q) else items[k])
  }

  /** How many slots hold the object `obj`. */
  function Copies(items: seq<CartItem>, obj: Ref): nat
  {
    if |items| == 0 then 0
    else Copies(items[..|items| - 1], obj) + (if items[|items| - 1].ref == obj then 1 else 0)
  }

  /** A reference no slot holds: a newly created object. */
  function FreshRef(items: seq<CartItem>): (r: Ref)
    ensures forall k | 0 <= k < |items| :: items[k].ref < r
  {
    if |items| == 0 then 0
    else
      var init := FreshRef(items[..|items| - 1]);
      var last := items[|items| - 1].ref + 1;
      assert forall k | 0 <= k < |items| - 1 :: items[k] == items[..|items| - 1][k];
      if init < last then last else init
  }

  /** `updateCartItemQuantityUI`: only an item element that is present in
      the page gets the new text. */
  function ShowQuantity(shown: map<ItemId, int>, id: ItemId, qty: int): (r: map<ItemId, int>)
    ensures r.Keys == shown.Keys
    ensures id in shown ==> r[id] == qty
    ensures forall k | k in shown && k != id :: r[k] == shown[k]
  {
    if id in shown then shown[id := qty] else shown
  }

  // ----- counter and total -----

  /** `items.reduce((sum, item) => sum + item.qty, 0)`. */
  function QtySum(items: seq<CartItem>): int
  {
    if |items| == 0 then 0 else QtySum(items[..|items| - 1]) + items[|items| - 1].qty
  }

  lemma {:induction false} QtySumAppend(a: seq<CartItem>, b: seq<CartItem>)
    ensures QtySum(a + b) == QtySum(a) + QtySum(b)
    decreases |b|
  {
    if |b| > 0 {
      assert (a + b)[..|a + b| - 1] == a + b[..|b| - 1];
      QtySumAppend(a, b[..|b| - 1]);
    } else {
      assert a + b == a;
    }
  }

  /** Changing the quantity of an object changes the sum once per slot that
      holds it. */
  lemma {:induction false} QtySumSetQty(items: seq<CartItem>, obj: Ref, oldQty: int, q: int)
    requires forall k | 0 <= k < |items| && items[k].ref == obj :: items[k].qty == oldQty
    ensures QtySum(SetQty(items, obj, q)) == QtySum(items) + (q - oldQty) * Copies(items, obj)
    decreases |items|
  {
    if |items| > 0 {
      var init := items[..|items| - 1];
      assert SetQty(items, obj, q)[..|items| - 1] == SetQty(init, obj, q);
      QtySumSetQty(init, obj, oldQty, q);
    }
  }

  /** `updateCartCounter()`: with a cart, the counter shows the total
      quantity and is displayed only when it is positive; without one it is
      left as it was. Nothing else changes. */
  function RefreshCounter(ui: CartUi): (r: CartUi)
    ensures r.cart == ui.cart && r.shown == ui.shown
    ensures ui.cart.None? ==> r.counter == ui.counter
    ensures ui.cart.Some? ==> r.counter.total == QtySum(ui.cart.value) && (r.counter.visible <==> r.counter.total > 0)
  {
    match ui.cart
    case None => ui
    case Some(items) =>
      var n := QtySum(items);
      ui.(counter := Counter(n, n > 0))
  }

  /** Refreshing twice is refreshing once. */
  lemma RefreshCounterIdempotent(ui: CartUi)
    ensures RefreshCounter(RefreshCounter(ui)) == RefreshCounter(ui)
  {
  }

  // ----- adding, removing and rolling back -----

  /** `addCartItemUI`: pushes the item once more onto `window.cart.items`
      when the cart is set, then refreshes the counter. */
  function AddCartItemUI(ui: CartUi, item: CartItem): (r: CartUi)
    ensures ui.cart.None? ==> r == ui
    ensures ui.cart.Some? ==> r.cart == Some(ui.cart.value + [item]) && r.shown == ui.shown
    ensures ui.cart.Some? ==> r.counter.total == QtySum(ui.cart.value) + item.qty
  {
    match ui.cart
    case None => ui
    case Some(items) =>
      QtySumAppend(items, [item]);
      RefreshCounter(ui.(cart := Some(items + [item])))
  }

  datatype Applied = Applied(ui: CartUi, rollback: Rollback)

  /** `updateCartUI(dishId, quantity)` at time `now`. The object of the
      first mergeable line grows by `quantity`, in every slot that holds it,
      and only the item element's text is refreshed. Otherwise a new object
      with id `temp_<now>` is pushed onto the cart's items and then pushed
      again by `addCartItemUI`, which refreshes the counter; when
      `window.cart` is unset the first push goes to a throw-away
      `{items: []}` and nothing else happens. */
  function UpdateCartUI(ui: CartUi, dishId: int, quantity: int, now: int): (r: Applied)
    ensures ui.cart.None? ==> r.ui == ui && r.rollback == Add(TempId(now), CartItem(FreshRef([]), TempId(now), dishId, quantity, []))
    ensures ui.cart.Some? && FindMergeable(ui.cart.value, dishId).Some? ==>
      var items := ui.cart.value;
      var i := FindMergeable(items, dishId).value;
      && r.ui.cart == Some(SetQty(items, items[i].ref, items[i].qty + quantity))
      && r.ui.shown == ShowQuantity(ui.shown, items[i].id, items[i].qty + quantity)
      && r.ui.counter == ui.counter
      && r.rollback == Update(items[i].id, items[i].qty)
    ensures ui.cart.Some? && FindMergeable(ui.cart.value, dishId).None? ==>
      var item := CartItem(FreshRef(ui.cart.value), TempId(now), dishId, quantity, []);
      && r.ui == RefreshCounter(ui.(cart := Some(ui.cart.value + [item, item])))
      && r.rollback == Add(TempId(now), item)
    ensures ui.cart.Some? && Coherent(ui.cart.value) ==> r.ui.cart.Some? && Coherent(r.ui.cart.value)
  {
    var items := if ui.cart.Some? then ui.cart.value else [];
    match FindMergeable(items, dishId)
    case Some(i) =>
      var merged := items[i].qty + quantity;
      var after := SetQty(items, items[i].ref, merged);
      assert Coherent(items) ==> Coherent(after) by {
        if Coherent(items) {
          forall p, q | 0 <= p < |after| && 0 <= q < |after| && after[p].ref == after[q].ref
            ensures after[p] == after[q]
          {
            assert items[p] == items[q];
          }
        }
      }
      Applied(ui.(cart := Some(after), shown := ShowQuantity(ui.shown, items[i].id, merged)),
              Update(items[i].id, items[i].qty))
    case None =>
      var item := CartItem(FreshRef(items), TempId(now), dishId, quantity, []);
      var pushed := if ui.cart.Some? then ui.(cart := Some(items + [item])) else ui;
      assert items + [item] + [item] == items + [item, item];
      Applied(AddCartItemUI(pushed, item), Add(item.id, item))
  }

  /** Lines with chosen options are never merged into, and no line goes
      away. */
  lemma UpdateCartUIKeepsOptionLines(ui: CartUi, dishId: int, quantity: int, now: int)
    requires ui.cart.Some? && Coherent(ui.cart.value)
    ensures var after := UpdateCartUI(ui, dishId, quantity, now).ui.cart.value;
      && |after| >= |ui.cart.value|
      && forall k | 0 <= k < |ui.cart.value| && |ui.cart.value[k].options| > 0 :: after[k] == ui.cart.value[k]
  {
    var items := ui.cart.value;
    if FindMergeable(items, dishId).Some? {
      var i := FindMergeable(items, dishId).value;
      forall k | 0 <= k < |items| && |items[k].options| > 0
        ensures items[k].ref != items[i].ref
      {
        assert items[k].options != items[i].options;
      }
    }
  }

  /** A dish added twice from an empty cart: the second add merges into the
      object the first one pushed twice, so both slots show quantity 2 and
      the cart holds 4, while the counter still shows the 2 it was last
      refreshed to. */
  lemma RepeatedAddSharesLine(shown: map<ItemId, int>, counter: Counter, now1: int, now2: int)
    ensures var ui1 := UpdateCartUI(CartUi(Some([]), shown, counter), 7, 1, now1).ui;
      var ui2 := UpdateCartUI(ui1, 7, 1, now2).ui;
      var o := CartItem(0, TempId(now1), 7, 2, []);
      && ui1.counter == Counter(2, true)
      && ui2.cart == Some([o, o])
      && QtySum(ui2.cart.value) == 4
      && ui2.counter == Counter(2, true)
  {
    var item := CartItem(0, TempId(now1), 7, 1, []);
    var ui1 := UpdateCartUI(CartUi(Some([]), shown, counter), 7, 1, now1).ui;
    assert [] + [item, item] == [item, item];
    assert ui1.cart == Some([item, item]);
    assert QtySum([item]) == 1 by {
      assert [item][..0] == [];
    }
    assert QtySum([item, item]) == 2 by {
      assert [item, item][..1] == [item];
    }
    assert FindMergeable([item, item], 7) == Some(0);
    var o := CartItem(0, TempId(now1), 7, 2, []);
    assert SetQty([item, item], 0, 2) == [o, o];
    assert QtySum([o]) == 2 by {
      assert [o][..0] == [];
    }
    assert QtySum([o, o]) == 4 by {
      assert [o, o][..1] == [o];
    }
  }

  /** `items.filter(item => item.id !== itemId)`. */
  function Without(items: seq<CartItem>, id: ItemId): (r: seq<CartItem>)
    ensures |r| <= |items|
    ensures forall k | 0 <= k < |r| :: r[k].id != id && r[k] in items
    ensures (forall k | 0 <= k < |items| :: items[k].id != id) ==> r == items
  {
    if |items| == 0 then []
    else if items[0].id == id then Without(items[1..], id)
    else [items[0]] + Without(items[1..], id)
  }

  /** Filtering keeps the relative order: it distributes over
      concatenation. */
  lemma {:induction false} WithoutAppend(a: seq<CartItem>, b: seq<CartItem>, id: ItemId)
    ensures Without(a + b, id) == Without(a, id) + Without(b, id)
    decreases |a|
  {
    if |a| > 0 {
      assert (a + b)[1..] == a[1..] + b;
      WithoutAppend(a[1..], b, id);
    } else {
      assert a + b == a + b;
      assert [] + b == b;
    }
  }

  /** `removeCartItemUI(itemId)`: the item element leaves the page, every
      line with that id leaves the cart, the rest in order, and the counter
      is refreshed. */
  function RemoveCartItemUI(ui: CartUi, id: ItemId): (r: CartUi)
    ensures r.shown.Keys == ui.shown.Keys - {id}
    ensures forall k | k in r.shown :: r.shown[k] == ui.shown[k]
    ensures ui.cart.None? <==> r.cart.None?
    ensures ui.cart.Some? ==> r.cart.value == Without(ui.cart.value, id)
    ensures ui.cart.None? ==> r.counter == ui.counter
    ensures ui.cart.Some? ==> r.counter.total == QtySum(r.cart.value)
  {
    RefreshCounter(CartUi(if ui.cart.Some? then Some(Without(ui.cart.value, id)) else None, ui.shown - {id}, ui.counter))
  }

  /** `rollbackCartUI(rollbackData)`: an add is undone by removing the
      item; an update only puts the old quantity back into the page, the
      cart line keeps its increased quantity. */
  function RollbackCartUI(ui: CartUi, rb: Rollback): (r: CartUi)
    ensures rb.Update? ==> r.cart == ui.cart && r.counter == ui.counter && r.shown == ShowQuantity(ui.shown, rb.itemId, rb.oldQuantity)
    ensures rb.Add? ==> r == RemoveCartItemUI(ui, rb.itemId)
  {
    match rb
    case Update(id, oldQty) => ui.(shown := ShowQuantity(ui.shown, id, oldQty))
    case Add(id, _) => RemoveCartItemUI(ui, id)
  }

  /** Rolling back an add gives the cart and the item elements back
      exactly, both copies of the new line removed, provided no line already
      carried the same temporary id; the counter ends up refreshed. */
  lemma AddThenRollback(ui: CartUi, dishId: int, quantity: int, now: int)
    requires ui.cart.Some? ==> FindMergeable(ui.cart.value, dishId).None?
    requires ui.cart.Some? ==> forall k | 0 <= k < |ui.cart.value| :: ui.cart.value[k].id != TempId(now)
    requires TempId(now) !in ui.shown
    ensures UpdateCartUI(ui, dishId, quantity, now).rollback.Add?
    ensures RollbackCartUI(UpdateCartUI(ui, dishId, quantity, now).ui, UpdateCartUI(ui, dishId, quantity, now).rollback) == RefreshCounter(ui)
  {
    var a := UpdateCartUI(ui, dishId, quantity, now);
    assert ui.shown - {TempId(now)} == ui.shown;
    if ui.cart.Some? {
      var items := ui.cart.value;
      var item := CartItem(FreshRef(items), TempId(now), dishId, quantity, []);
      assert a.rollback == Add(TempId(now), item);
      assert a.ui.cart == Some(items + [item, item]);
      WithoutAppend(items, [item, item], TempId(now));
      assert Without([item, item], TempId(now)) == [];
      assert Without(items, TempId(now)) == items;
      assert Without(a.ui.cart.value, TempId(now)) == items;
    }
  }

  /** Rolling back a merge leaves the cart at its increased quantity: the
      page shows the line's old number again, the cart state does not. */
  lemma MergeRollbackKeepsQuantity(ui: CartUi, dishId: int, quantity: int, now: int)
    requires ui.cart.Some? && FindMergeable(ui.cart.value, dishId).Some?
    requires quantity != 0
    ensures var a := UpdateCartUI(ui, dishId, quantity, now);
      var i := FindMergeable(ui.cart.value, dishId).value;
      && RollbackCartUI(a.ui, a.rollback).cart != ui.cart
      && RollbackCartUI(a.ui, a.rollback).cart.value[i].qty == ui.cart.value[i].qty + quantity
      && RollbackCartUI(a.ui, a.rollback).shown.Keys == ui.shown.Keys
      && (a.rollback.itemId in ui.shown ==>
            RollbackCartUI(a.ui, a.rollback).shown[a.rollback.itemId] == ui.cart.value[i].qty)
  {
    var items := ui.cart.value;
    var i := FindMergeable(items, dishId).value;
    var a := UpdateCartUI(ui, dishId, quantity, now);
    assert RollbackCartUI(a.ui, a.rollback).cart.value[i].qty != items[i].qty;
  }

  /** A merge leaves the counter as it was, while the cart's total
      quantity rises by the quantity once per slot holding the merged
      object. */
  lemma CounterAfterMerge(ui: CartUi, dishId: int, quantity: int, now: int)
    requires ui.cart.Some? && Coherent(ui.cart.value)
    requires FindMergeable(ui.cart.value, dishId).Some?
    ensures var items := ui.cart.value;
      var i := FindMergeable(items, dishId).value;
      var a := UpdateCartUI(ui, dishId, quantity, now);
      && a.ui.counter == ui.counter
      && QtySum(a.ui.cart.value) == QtySum(items) + quantity * Copies(items, items[i].ref)
  {
    var items := ui.cart.value;
    var i := FindMergeable(items, dishId).value;
    forall k | 0 <= k < |items| && items[k].ref == items[i].ref
      ensures items[k].qty == items[i].qty
    {
      assert items[k] == items[i];
    }
    QtySumSetQty(items, items[i].ref, items[i].qty, items[i].qty + quantity);
  }

  /** An append refreshes the counter, which rises by twice the quantity,
      because the new object is pushed twice. */
  lemma CounterAfterAppend(ui: CartUi, dishId: int, quantity: int, now: int)
    requires ui.cart.Some? && FindMergeable(ui.cart.value, dishId).None?
    ensures UpdateCartUI(ui, dishId, quantity, now).ui.counter.total == QtySum(ui.cart.value) + 2 * quantity
  {
    var items := ui.cart.value;
    var item := CartItem(FreshRef(items), TempId(now), dishId, quantity, []);
    QtySumAppend(items, [item, item]);
    assert [item, item][..1] == [item];
    assert [item][..0] == [];
  }

  /** What an add does to the counter: an append refreshes it, a merge
      leaves it stale. */
  lemma CounterAfterAdd(ui: CartUi, dishId: int, quantity: int, now: int)
    requires ui.cart.Some? && Coherent(ui.cart.value)
    ensures var items := ui.cart.value;
      var a := UpdateCartUI(ui, dishId, quantity, now);
      && (FindMergeable(items, dishId).Some? ==>
            && a.ui.counter == ui.counter
            && QtySum(a.ui.cart.value) == QtySum(items) + quantity * Copies(items, items[FindMergeable(items, dishId).value].ref))
      && (FindMergeable(items, dishId).None? ==> a.ui.counter.total == QtySum(items) + 2 * quantity)
  {
    if FindMergeable(ui.cart.value, dishId).Some? {
      CounterAfterMerge(ui, dishId, quantity, now);
    } else {
      CounterAfterAppend(ui, dishId, quantity, now);
    }
  }

  /** `dish?.price || 0`: a missing map, a missing dish and a zero price
      all count as 0. */
  function Price(prices: Option<map<int, int>>, dishId: int): (p: int)
    ensures prices.None? ==> p == 0
    ensures prices.Some? && dishId in prices.value ==> p == prices.value[dishId]
    ensures prices.Some? && dishId !in prices.value ==> p == 0
  {
    if prices.Some? && dishId in prices.value then prices.value[dishId] else 0
  }

  /** `updateCartTotal()`'s reduce: price times quantity over the lines. */
  function CartTotal(items: seq<CartItem>, prices: Option<map<int, int>>): int
  {
    if |items| == 0 then 0
    else CartTotal(items[..|items| - 1], prices) + Price(prices, items[|items| - 1].dishId) * items[|items| - 1].qty
  }

  lemma {:induction false} CartTotalAppend(a: seq<CartItem>, b: seq<CartItem>, prices: Option<map<int, int>>)
    ensures CartTotal(a + b, prices) == CartTotal(a, prices) + CartTotal(b, prices)
    decreases |b|
  {
    if |b| > 0 {
      assert (a + b)[..|a + b| - 1] == a + b[..|b| - 1];
      CartTotalAppend(a, b[..|b| - 1], prices);
    } else {
      assert a + b == a;
    }
  }

  /** Without a price map every total is 0; with one, a cart of lines whose
      dishes all cost `p` totals `p` times the quantity sum. */
  lemma {:induction false} CartTotalUniformPrice(items: seq<CartItem>, prices: Option<map<int, int>>, p: int)
    requires prices.None? ==> p == 0
    requires forall k | 0 <= k < |items| :: Price(prices, items[k].dishId) == p
    ensures CartTotal(items, prices) == p * QtySum(items)
    decreases |items|
  {
    if |items| > 0 {
      CartTotalUniformPrice(items[..|items| - 1], prices, p);
      assert Price(prices, items[|items| - 1].dishId) == p;
    }
  }

  // ----- addToCart -----

  /** How the returned promise settles. */
  datatype Settled = Resolved | RejectedWith(error: string)

  datatype AddResult = AddResult(ui: CartUi, settled: Settled, errorToast: bool)

  /** `addToCart` as written. The optimistic change is applied first. On
      every path the `try` block then throws: a failed request throws, and
      a successful one calls `updateCartWithServerData`, which the class
      does not define. The `catch` block's first statement reads
      `rollbackData`, a `const` of the `try` block that is out of scope
      there, so it throws a ReferenceError before any rollback or error
      toast. */
  function AddToCartAsWritten(ui: CartUi, dishId: int, quantity: int, now: int, requestOk: bool): (r: AddResult)
    ensures r.ui == UpdateCartUI(ui, dishId, quantity, now).ui
    ensures r.settled == RejectedWith("ReferenceError") && !r.errorToast
  {
    var applied := UpdateCartUI(ui, dishId, quantity, now);
    AddResult(applied.ui, RejectedWith("ReferenceError"), false)
  }

  /** A failed request for a new dish leaves the line in the cart, twice. */
  lemma AddToCartAsWrittenKeepsFailedLine(counter: Counter)
    ensures var ui := CartUi(Some([]), map[], counter);
      var r := AddToCartAsWritten(ui, 7, 1, 1000, false);
      && r.ui.cart == Some([CartItem(0, TempId(1000), 7, 1, []), CartItem(0, TempId(1000), 7, 1, [])])
      && r.ui.cart != ui.cart
  {
    var item := CartItem(0, TempId(1000), 7, 1, []);
    assert FindMergeable([], 7).None?;
    assert [] + [item, item] == [item, item];
  }

  /** `addToCart` with `rollbackData` declared before the `try`: a failed
      request is rolled back and reported with an error toast; a successful
      one keeps the optimistic state. */
  function AddToCart(ui: CartUi, dishId: int, quantity: int, now: int, requestOk: bool): (r: AddResult)
    ensures requestOk ==> r.ui == UpdateCartUI(ui, dishId, quantity, now).ui && r.settled == Resolved && !r.errorToast
    ensures !requestOk ==> r.settled == Resolved && r.errorToast
    ensures !requestOk ==>
      var a := UpdateCartUI(ui, dishId, quantity, now);
      r.ui == RollbackCartUI(a.ui, a.rollback)
  {
    var applied := UpdateCartUI(ui, dishId, quantity, now);
    if requestOk then AddResult(applied.ui, Resolved, false)
    else AddResult(RollbackCartUI(applied.ui, applied.rollback), Resolved, true)
  }

  /** With the rollback in scope, a failed add of a new dish leaves the
      cart and the item elements as they were, with the counter
      refreshed. */
  lemma FailedAddRestoresCart(ui: CartUi, dishId: int, quantity: int, now: int)
    requires ui.cart.Some? ==> FindMergeable(ui.cart.value, dishId).None?
    requires ui.cart.Some? ==> forall k | 0 <= k < |ui.cart.value| :: ui.cart.value[k].id != TempId(now)
    requires TempId(now) !in ui.shown
    ensures AddToCart(ui, dishId, quantity, now, false).ui == RefreshCounter(ui)
    ensures AddToCart(ui, dishId, quantity, now, false).ui.cart == ui.cart
  {
    AddThenRollback(ui, dishId, quantity, now);
  }
}
