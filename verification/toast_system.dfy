/** The toast notification queue: at most three toasts are tracked, the
    oldest is evicted from the front when a fourth arrives, and hiding is two
    phase (an immediate fade, then a removal 300 ms later). Toast elements are
    handles; `attached` is the set of handles currently inside the container
    element; `pending` is the log of delayed removals scheduled so far, in
    the order they were scheduled. A scheduled removal takes effect when a
    `Fire` event for it is stepped; the log itself is never consumed. */
module ToastSystem {
  import opened Wrappers

  const MaxToasts: nat := 3
  const DefaultDuration: int := 3000
  /** Delay between the fade and the removal of a hidden toast. */
  const RemovalDelay: int := 300

  type ToastId = nat

  datatype ToastState = ToastState(toasts: seq<ToastId>, attached: set<ToastId>, pending: seq<ToastId>)

  /** Every tracked toast is still in the container, and none is tracked
      twice. */
  predicate Valid(st: ToastState) {
    && |st.toasts| <= MaxToasts
    && (forall k | 0 <= k < |st.toasts| :: st.toasts[k] in st.attached)
    && Distinct(st.toasts)
  }

  /** `hideToast(toast)`: a toast that is not in the container is left
      alone; otherwise its removal is scheduled. */
  function HideToast(st: ToastState, t: ToastId): (r: ToastState)
    ensures t !in st.attached ==> r == st
    ensures t in st.attached ==> r == st.(pending := st.pending + [t])
  {
    if t !in st.attached then st else st.(pending := st.pending + [t])
  }

  predicate Distinct(s: seq<ToastId>) {
    forall i, j | 0 <= i < j < |s| :: s[i] != s[j]
  }

  /** `toasts.indexOf(t)` for a present toast. */
  function FirstIndex(s: seq<ToastId>, t: ToastId): (i: nat)
    requires t in s
    ensures i < |s| && s[i] == t && t !in s[..i]
  {
    if s[0] == t then 0
    else
      var j := FirstIndex(s[1..], t);
      assert s[..j + 1] == [s[0]] + s[1..][..j];
      j + 1
  }

  /** `toasts.splice(toasts.indexOf(t), 1)` guarded by `index > -1`: the
      first occurrence goes, the rest keep their order. */
  function RemoveFirst(s: seq<ToastId>, t: ToastId): (r: seq<ToastId>)
    ensures t !in s ==> r == s
    ensures t in s ==> |r| == |s| - 1
    ensures t in s ==> forall k | 0 <= k < |r| :: r[k] == if k < FirstIndex(s, t) then s[k] else s[k + 1]
  {
    if t !in s then s else RemoveAt(s, FirstIndex(s, t))
  }

  /** The list without position `i`. */
  function RemoveAt(s: seq<ToastId>, i: nat): (r: seq<ToastId>)
    requires i < |s|
    ensures |r| == |s| - 1
    ensures forall k | 0 <= k < |r| :: r[k] == if k < i then s[k] else s[k + 1]
  {
    s[..i] + s[i + 1..]
  }

  /** Removing from a queue without repeats leaves a queue without repeats
      that no longer holds the toast, and adds no one. */
  lemma RemoveFirstDistinct(s: seq<ToastId>, t: ToastId)
    ensures forall k | 0 <= k < |RemoveFirst(s, t)| :: RemoveFirst(s, t)[k] in s
    ensures Distinct(s) ==> Distinct(RemoveFirst(s, t)) && t !in RemoveFirst(s, t)
  {
    if t in s {
      var i := FirstIndex(s, t);
      RemoveAtMembers(s, i);
      if Distinct(s) {
        RemoveAtDistinct(s, i);
      }
    }
  }

  /** Every row left after removing position `i` was in the list. */
  lemma RemoveAtMembers(s: seq<ToastId>, i: nat)
    requires i < |s|
    ensures forall k | 0 <= k < |RemoveAt(s, i)| :: RemoveAt(s, i)[k] in s
  {
    var r := RemoveAt(s, i);
    forall k | 0 <= k < |r| ensures r[k] in s {
      var k' := if k < i then k else k + 1;
      assert r[k] == s[k'];
    }
  }

  /** Removing position `i` from a list without repeats leaves one without
      repeats that no longer holds the removed row. */
  lemma RemoveAtDistinct(s: seq<ToastId>, i: nat)
    requires i < |s| && Distinct(s)
    ensures Distinct(RemoveAt(s, i)) && s[i] !in RemoveAt(s, i)
  {
    var r := RemoveAt(s, i);
    forall p, q | 0 <= p < q < |r| ensures r[p] != r[q] {
      var p', q' := if p < i then p else p + 1, if q < i then q else q + 1;
      assert r[p] == s[p'] && r[q] == s[q'];
    }
    forall k | 0 <= k < |r| ensures r[k] != s[i] {
      var k' := if k < i then k else k + 1;
      assert r[k] == s[k'];
    }
  }

  /** The delayed half of `hideToast`, 300 ms later: the element leaves the
      container and the toast leaves the queue, the others keep their order. */
  function FireRemoval(st: ToastState, t: ToastId): (r: ToastState)
    ensures r.attached == st.attached - {t}
    ensures r.toasts == RemoveFirst(st.toasts, t)
    ensures r.pending == st.pending
    ensures Valid(st) ==> Valid(r) && t !in r.toasts
  {
    RemoveFirstDistinct(st.toasts, t);
    st.(toasts := RemoveFirst(st.toasts, t), attached := st.attached - {t})
  }

  /** `addToast(toast)` for a freshly created element: it joins the
      container; when three toasts are tracked the oldest is shifted out at
      once and its hide begins; the new toast goes to the back. */
  function AddToast(st: ToastState, t: ToastId): (r: ToastState)
    requires t !in st.attached && t !in st.toasts
    ensures |st.toasts| < MaxToasts ==> r.toasts == st.toasts + [t]
    ensures |st.toasts| >= MaxToasts ==> r.toasts == st.toasts[1..] + [t]
    ensures |st.toasts| >= MaxToasts && st.toasts[0] in st.attached ==> r.pending == st.pending + [st.toasts[0]]
    ensures |st.toasts| < MaxToasts ==> r.pending == st.pending
    ensures r.attached == st.attached + {t}
    ensures Valid(st) ==> Valid(r)
  {
    var withElement := st.(attached := st.attached + {t});
    if |st.toasts| >= MaxToasts then
      var oldest := st.toasts[0];
      var shifted := withElement.(toasts := st.toasts[1..]);
      var hidden := HideToast(shifted, oldest);
      hidden.(toasts := hidden.toasts + [t])
    else
      withElement.(toasts := st.toasts + [t])
  }

  /** `clear()`: the container is emptied and the queue forgotten; removals
      already scheduled still fire later. */
  function Clear(st: ToastState): (r: ToastState)
    ensures r.toasts == [] && r.attached == {} && r.pending == st.pending
    ensures Valid(r)
  {
    ToastState([], {}, st.pending)
  }

  /** Hides the given toasts one after the other. */
  function HideEach(st: ToastState, queue: seq<ToastId>): (r: ToastState)
    ensures r.toasts == st.toasts && r.attached == st.attached
    ensures |r.pending| <= |st.pending| + |queue|
    ensures (forall k | 0 <= k < |queue| :: queue[k] in st.attached) ==> r.pending == st.pending + queue
    decreases |queue|
  {
    if |queue| == 0 then st
    else
      var r := HideEach(HideToast(st, queue[0]), queue[1..]);
      assert st.pending + [queue[0]] + queue[1..] == st.pending + queue;
      r
  }

  /** `hideAll()`: every tracked toast starts hiding, in queue order; the
      queue itself only shrinks as the removals fire. */
  function HideAll(st: ToastState): (r: ToastState)
    ensures r.toasts == st.toasts && r.attached == st.attached
    ensures Valid(st) ==> r.pending == st.pending + st.toasts
  {
    HideEach(st, st.toasts)
  }

  /** The removals of the given toasts firing in order. */
  function FireEvents(ts: seq<ToastId>): (r: seq<Event>)
    ensures |r| == |ts|
    ensures forall k | 0 <= k < |ts| :: r[k] == Fire(ts[k])
  {
    seq(|ts|, k requires 0 <= k < |ts| => Fire(ts[k]))
  }

  /** Firing the removals of the whole queue, front first, empties it. */
  lemma {:induction false} FiresEmptyQueue(st: ToastState, ts: seq<ToastId>)
    requires st.toasts == ts
    ensures Run(st, FireEvents(ts)).toasts == []
    decreases |ts|
  {
    if |ts| > 0 {
      var next := Step(st, FireEvents(ts)[0]);
      assert FirstIndex(ts, ts[0]) == 0;
      assert next.toasts == ts[1..];
      assert FireEvents(ts)[1..] == FireEvents(ts[1..]);
      FiresEmptyQueue(next, ts[1..]);
    }
  }

  /** Once the removals `hideAll()` schedules have fired, no toast is
      tracked and none of them is left in the container. */
  lemma HideAllThenFires(st: ToastState)
    requires Valid(st)
    ensures HideAll(st).pending == st.pending + st.toasts
    ensures Run(HideAll(st), FireEvents(st.toasts)).toasts == []
  {
    FiresEmptyQueue(HideAll(st), st.toasts);
  }

  /** A second removal of the same toast changes nothing. */
  lemma FireRemovalIdempotent(st: ToastState, t: ToastId)
    requires Valid(st)
    ensures FireRemoval(FireRemoval(st, t), t) == FireRemoval(st, t)
  {
  }

  /** The queue-changing events: a new toast, a scheduled removal firing,
      a user-triggered hide, and `clear()`. */
  datatype Event = Add(t: ToastId) | Fire(t: ToastId) | Hide(t: ToastId) | ClearAll

  /** A step of the queue. An `Add` of a handle already in use cannot
      happen (each `show` creates a new element) and is ignored. */
  function Step(st: ToastState, e: Event): ToastState
  {
    match e
    case Add(t) => if t !in st.attached && t !in st.toasts then AddToast(st, t) else st
    case Fire(t) => FireRemoval(st, t)
    case Hide(t) => HideToast(st, t)
    case ClearAll => Clear(st)
  }

  function Run(st: ToastState, events: seq<Event>): ToastState
    decreases |events|
  {
    if |events| == 0 then st else Run(Step(st, events[0]), events[1..])
  }

  /** The queue bound and the queue's other invariants survive any
      interleaving of adds, hides, removals and clears. */
  lemma {:induction false} RunPreservesValid(st: ToastState, events: seq<Event>)
    requires Valid(st)
    ensures Valid(Run(st, events))
    decreases |events|
  {
    if |events| > 0 {
      RunPreservesValid(Step(st, events[0]), events[1..]);
    }
  }

  // ----- messages, icons and durations -----

  /** The auto-hide delay of `show`: the given duration when it is truthy
      (present and non-zero), otherwise 3000 ms. */
  function HideDelay(duration: Option<int>): (d: int)
    ensures duration.Some? && duration.value != 0 ==> d == duration.value
    ensures duration.None? || duration.value == 0 ==> d == DefaultDuration
  {
    if duration.Some? && duration.value != 0 then duration.value else DefaultDuration
  }

  /** `getIconForType(type)`: the five known types have their own icon,
      anything else gets the info icon. */
  function IconForType(kind: string): (icon: string)
    ensures kind == "success" ==> icon == "\U{2705}"
    ensures kind == "error" ==> icon == "\U{274C}"
    ensures kind == "warning" ==> icon == "\U{26A0}\U{FE0F}"
    ensures kind == "info" ==> icon == "\U{2139}\U{FE0F}"
    ensures kind == "loading" ==> icon == "\U{23F3}"
    ensures kind !in {"success", "error", "warning", "info", "loading"} ==> icon == "\U{2139}\U{FE0F}"
    ensures icon in {"\U{2705}", "\U{274C}", "\U{26A0}\U{FE0F}", "\U{2139}\U{FE0F}", "\U{23F3}"}
  {
    if kind == "success" then "\U{2705}"
    else if kind == "error" then "\U{274C}"
    else if kind == "warning" then "\U{26A0}\U{FE0F}"
    else if kind == "loading" then "\U{23F3}"
    else "\U{2139}\U{FE0F}"
  }

  /** Different known types get different icons. */
  lemma IconsDistinguishKnownTypes(a: string, b: string)
    requires a in {"success", "error", "warning", "info", "loading"}
    requires b in {"success", "error", "warning", "info", "loading"}
    requires a != b
    ensures IconForType(a) != IconForType(b)
  {
  }

  /** A `show` call as issued by the convenience methods. */
  datatype Request = Request(kind: string, message: string, duration: Option<int>)

  /** `orderStatusChanged(status)`: five fixed texts, otherwise a generic text
      quoting the status; always an info toast for 3000 ms. */
  function OrderStatusChanged(status: string): (r: Request)
    ensures r.kind == "info" && r.duration == Some(3000)
    ensures status == "confirmed" ==> r.message == "Заказ подтвержден"
    ensures status == "preparing" ==> r.message == "Заказ готовится"
    ensures status == "ready" ==> r.message == "Заказ готов к выдаче"
    ensures status == "delivered" ==> r.message == "Заказ доставлен"
    ensures status == "cancelled" ==> r.message == "Заказ отменен"
    ensures status !in {"confirmed", "preparing", "ready", "delivered", "cancelled"} ==>
      r.message == "Статус заказа изменен: " + status
  {
    var text :=
      if status == "confirmed" then "Заказ подтвержден"
      else if status == "preparing" then "Заказ готовится"
      else if status == "ready" then "Заказ готов к выдаче"
      else if status == "delivered" then "Заказ доставлен"
      else if status == "cancelled" then "Заказ отменен"
      else "Статус заказа изменен: " + status;
    Request("info", text, Some(3000))
  }

  /** Unknown statuses are told apart by their text. */
  lemma UnknownStatusesDistinct(a: string, b: string)
    requires a !in {"confirmed", "preparing", "ready", "delivered", "cancelled"}
    requires b !in {"confirmed", "preparing", "ready", "delivered", "cancelled"}
    requires OrderStatusChanged(a).message == OrderStatusChanged(b).message
    ensures a == b
  {
    var p := "Статус заказа изменен: ";
    assert a == OrderStatusChanged(a).message[|p|..];
    assert b == OrderStatusChanged(b).message[|p|..];
  }

  /** `cartAdded(name, quantity)`: a success toast for 2000 ms whose text
      mentions the count only when more than one was added. */
  function CartAdded(dishName: string, quantity: int, quantityText: string): (r: Request)
    ensures r.kind == "success" && r.duration == Some(2000)
    ensures quantity > 1 ==> r.message == "Добавлено " + quantityText + " шт. \"" + dishName + "\" в корзину"
    ensures quantity <= 1 ==> r.message == "\"" + dishName + "\" добавлено в корзину"
  {
    var text :=
      if quantity > 1 then "Добавлено " + quantityText + " шт. \"" + dishName + "\" в корзину"
      else "\"" + dishName + "\" добавлено в корзину";
    Request("success", text, Some(2000))
  }

  /** `loading(message)`: the second definition of `loading` in the class
      replaces the first, so the call passes no duration and the toast hides
      after the default 3000 ms despite its "persistent" class. */
  function Loading(message: string): (r: Request)
    ensures r.kind == "loading" && r.message == message
    ensures HideDelay(r.duration) == DefaultDuration
  {
    Request("loading", message, None)
  }

  /** What `show` returns: the new state and when the toast will hide. */
  datatype Shown = Shown(state: ToastState, hideAfter: int)

  /** `show(message, type, duration)` with a fresh element `t`. */
  function Show(st: ToastState, t: ToastId, req: Request): (r: Shown)
    requires t !in st.attached && t !in st.toasts
    ensures r.state == AddToast(st, t)
    ensures r.hideAfter == HideDelay(req.duration)
    ensures r.hideAfter > 0 || (req.duration.Some? && req.duration.value < 0)
    ensures t in r.state.toasts && r.state.toasts[|r.state.toasts| - 1] == t
  {
    Shown(AddToast(st, t), HideDelay(req.duration))
  }

  /** Below capacity, a shown toast whose removal fires leaves the queue
      and the container as they were before `show`. */
  lemma ShowThenFire(st: ToastState, t: ToastId, req: Request)
    requires Valid(st) && |st.toasts| < MaxToasts
    requires t !in st.attached && t !in st.toasts
    ensures FireRemoval(Show(st, t, req).state, t).toasts == st.toasts
    ensures FireRemoval(Show(st, t, req).state, t).attached == st.attached
  {
    var s := st.toasts + [t];
    assert s[..|st.toasts|] == st.toasts;
    assert FirstIndex(s, t) == |st.toasts|;
    assert RemoveFirst(s, t) == st.toasts;
  }

  /** Different dish names give different texts at the same quantity. */
  lemma CartAddedNamesDish(a: string, b: string, quantity: int, quantityText: string)
    requires CartAdded(a, quantity, quantityText).message == CartAdded(b, quantity, quantityText).message
    ensures a == b
  {
    var tail := "\" добавлено в корзину";
    if quantity > 1 {
      var head := "Добавлено " + quantityText + " шт. \"";
      var ma := CartAdded(a, quantity, quantityText).message;
      var mb := CartAdded(b, quantity, quantityText).message;
      assert ma == head + a + "\" в корзину";
      assert a == ma[|head|..|ma| - |"\" в корзину"|];
      assert b == mb[|head|..|mb| - |"\" в корзину"|];
    } else {
      var ma := CartAdded(a, quantity, quantityText).message;
      var mb := CartAdded(b, quantity, quantityText).message;
      assert a == ma[1..|ma| - |tail|];
      assert b == mb[1..|mb| - |tail|];
    }
  }
}
