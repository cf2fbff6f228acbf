/** The super-admin endpoints' rules over the tables they touch: restaurant
    creation and patching, broadcast recipients and counters, the media
    checks of a broadcast with an attachment, order statistics, the dish
    cascade delete, and the extension of an uploaded dish image. Tables are
    sequences of rows in query order; Telegram sends are reduced to whether
    each one succeeds. */
module Admin {
  import opened Wrappers
  import opened Text
  import opened Seqs

  // ----- restaurants -----

  datatype Restaurant = Restaurant(
    id: int, name: string, isEnabled: bool, ratingAgg: real,
    deliveryMinSum: int, deliveryFee: int, deliveryTimeMinutes: int,
    address: string, phone: string, description: Option<string>)

  /** `RestaurantCreate`: the fields a new restaurant takes from the
      request. */
  datatype RestaurantCreate = RestaurantCreate(
    name: string, deliveryMinSum: int, deliveryFee: int, deliveryTimeMinutes: int,
    address: string, phone: string)

  /** The body with its defaults filled in. */
  function DefaultCreate(name: string): RestaurantCreate {
    RestaurantCreate(name, 0, 0, 60, "", "")
  }

  /** The largest id in the table. */
  function MaxId(table: seq<Restaurant>): (m: int)
    requires |table| > 0
    ensures forall k | 0 <= k < |table| :: table[k].id <= m
    ensures exists k :: 0 <= k < |table| && table[k].id == m
  {
    if |table| == 1 then table[0].id
    else
      var rest := MaxId(table[1..]);
      assert forall k | 1 <= k < |table| :: table[k] == table[1..][k - 1];
      if table[0].id >= rest then table[0].id else rest
  }

  /** The id `create_restaurant` picks: one past the highest, or 1 for an
      empty table. */
  function NextRestaurantId(table: seq<Restaurant>): (id: int)
    ensures forall k | 0 <= k < |table| :: table[k].id < id
    ensures |table| == 0 ==> id == 1
    ensures |table| > 0 ==> exists k :: 0 <= k < |table| && table[k].id == id - 1
  {
    if |table| == 0 then 1 else MaxId(table) + 1
  }

  /** `create_restaurant`: the new row is disabled, unrated, and carries an
      id no existing row has. */
  function CreateRestaurant(table: seq<Restaurant>, body: RestaurantCreate): (r: (seq<Restaurant>, int))
    ensures |r.0| == |table| + 1 && r.0[..|table|] == table
    ensures var row := r.0[|table|];
      && row.id == r.1 && !row.isEnabled && row.ratingAgg == 0.0
      && row.name == body.name && row.deliveryMinSum == body.deliveryMinSum
      && row.deliveryFee == body.deliveryFee && row.deliveryTimeMinutes == body.deliveryTimeMinutes
      && row.address == body.address && row.phone == body.phone
    ensures forall k | 0 <= k < |table| :: table[k].id != r.1
  {
    var id := NextRestaurantId(table);
    var row := Restaurant(id, body.name, false, 0.0, body.deliveryMinSum, body.deliveryFee,
                          body.deliveryTimeMinutes, body.address, body.phone, None);
    (table + [row], id)
  }

  predicate DistinctIds(table: seq<Restaurant>) {
    forall i, j | 0 <= i < j < |table| :: table[i].id != table[j].id
  }

  /** Creation keeps restaurant ids unique, and ids grow with each
      creation. */
  lemma CreateKeepsIdsDistinct(table: seq<Restaurant>, a: RestaurantCreate, b: RestaurantCreate)
    requires DistinctIds(table)
    ensures DistinctIds(CreateRestaurant(table, a).0)
    ensures CreateRestaurant(CreateRestaurant(table, a).0, b).1 == CreateRestaurant(table, a).1 + 1
  {
    var (t1, id1) := CreateRestaurant(table, a);
    var m := MaxId(t1);
    assert t1[|table|].id == id1;
  }

  /** A numeric patch field as it may arrive: an integer, or a text that
      `int()` may or may not read. (The request model declares these fields
      as integers, so the framework has already converted numeric texts and
      refused others; the text case is modelled as the handler treats it.) */
  datatype Num = IntVal(n: int) | TextVal(t: string)

  /** `RestaurantUpdate` after `exclude_unset=True, exclude_none=True`:
      `None` is a field that was absent or null. */
  datatype RestaurantPatch = RestaurantPatch(
    name: Option<string>, deliveryMinSum: Option<Num>, deliveryFee: Option<Num>,
    deliveryTimeMinutes: Option<Num>, address: Option<string>, phone: Option<string>,
    isEnabled: Option<bool>, description: Option<string>)

  /** A numeric field's new value: an integer is taken, a readable text is
      converted, an unreadable one is dropped from the patch. */
  function NumPatch(prev: int, v: Option<Num>): (n: int)
    ensures v.None? ==> n == prev
    ensures v.Some? && v.value.IntVal? ==> n == v.value.n
    ensures v.Some? && v.value.TextVal? ==> n == PyInt(v.value.t).GetOr(prev)
  {
    match v
    case None => prev
    case Some(IntVal(x)) => x
    case Some(TextVal(t)) => PyInt(t).GetOr(prev)
  }

  /** The `setattr` loop: each present field replaces the row's value. */
  function ApplyPatch(row: Restaurant, p: RestaurantPatch): (r: Restaurant)
    ensures r.id == row.id && r.ratingAgg == row.ratingAgg
    ensures r.name == p.name.GetOr(row.name)
    ensures r.address == p.address.GetOr(row.address) && r.phone == p.phone.GetOr(row.phone)
    ensures r.isEnabled == p.isEnabled.GetOr(row.isEnabled)
    ensures r.description == (if p.description.Some? then p.description else row.description)
    ensures r.deliveryMinSum == NumPatch(row.deliveryMinSum, p.deliveryMinSum)
    ensures r.deliveryFee == NumPatch(row.deliveryFee, p.deliveryFee)
    ensures r.deliveryTimeMinutes == NumPatch(row.deliveryTimeMinutes, p.deliveryTimeMinutes)
  {
    Restaurant(row.id, p.name.GetOr(row.name), p.isEnabled.GetOr(row.isEnabled), row.ratingAgg,
               NumPatch(row.deliveryMinSum, p.deliveryMinSum), NumPatch(row.deliveryFee, p.deliveryFee),
               NumPatch(row.deliveryTimeMinutes, p.deliveryTimeMinutes),
               p.address.GetOr(row.address), p.phone.GetOr(row.phone),
               if p.description.Some? then p.description else row.description)
  }

  /** The first row with the given id. */
  function FindRestaurant(table: seq<Restaurant>, id: int): (r: Option<nat>)
    ensures r.None? <==> forall k | 0 <= k < |table| :: table[k].id != id
    ensures r.Some? ==> r.value < |table| && table[r.value].id == id
    ensures r.Some? ==> forall k | 0 <= k < r.value :: table[k].id != id
  {
    if |table| == 0 then None
    else if table[0].id == id then Some(0)
    else
      match FindRestaurant(table[1..], id)
      case None => None
      case Some(j) => Some(j + 1)
  }

  /** `update_restaurant`: 404 for an unknown id; otherwise only that row
      changes, and only in the fields the patch carries. */
  function UpdateRestaurant(table: seq<Restaurant>, id: int, p: RestaurantPatch): (r: Response<seq<Restaurant>>)
    ensures FindRestaurant(table, id).None? <==> r == HttpError(404, "not_found")
    ensures r.Ok? ==> |r.value| == |table|
    ensures r.Ok? ==>
      var i := FindRestaurant(table, id).value;
      r.value[i] == ApplyPatch(table[i], p) && forall k | 0 <= k < |table| && k != i :: r.value[k] == table[k]
  {
    match FindRestaurant(table, id)
    case None => HttpError(404, "not_found")
    case Some(i) => Ok(table[i := ApplyPatch(table[i], p)])
  }

  /** An empty patch changes nothing, and applying a patch twice is applying
      it once. */
  lemma UpdateRestaurantIdempotent(table: seq<Restaurant>, id: int, p: RestaurantPatch)
    requires UpdateRestaurant(table, id, p).Ok?
    ensures UpdateRestaurant(table, id, RestaurantPatch(None, None, None, None, None, None, None, None)) == Ok(table)
    ensures UpdateRestaurant(UpdateRestaurant(table, id, p).value, id, p) == UpdateRestaurant(table, id, p)
  {
    var t1 := UpdateRestaurant(table, id, p).value;
    var i := FindRestaurant(table, id).value;
    var none := RestaurantPatch(None, None, None, None, None, None, None, None);
    assert ApplyPatch(table[i], none) == table[i];
    assert table[i := table[i]] == table;
    assert FindRestaurant(t1, id) == Some(i) by {
      assert forall k | 0 <= k <= i :: t1[k].id == table[k].id;
    }
    assert ApplyPatch(t1[i], p) == t1[i];
    assert t1[i := t1[i]] == t1;
  }

  // ----- broadcast recipients -----

  datatype User = User(id: int, isBlocked: bool)

  /** The user ids the query returns for `target_type`, in table order:
      `all` is every unblocked user, `clients` the unblocked users who
      administer no restaurant, `restaurants` the unblocked ones who do;
      any other type has no recipients. */
  function GetTargetUsers(users: seq<User>, adminIds: set<int>, targetType: string): (ids: seq<int>)
    ensures targetType !in {"all", "clients", "restaurants"} ==> ids == []
    ensures targetType in {"all", "clients", "restaurants"} ==>
      forall x :: x in ids <==> exists k :: 0 <= k < |users| && users[k].id == x && Selected(users[k], adminIds, targetType)
    ensures targetType in {"all", "clients", "restaurants"} ==>
      |ids| == |Filter(users, (u: User) => Selected(u, adminIds, targetType))|
  {
    if targetType !in {"all", "clients", "restaurants"} then []
    else
      var keep := (u: User) => Selected(u, adminIds, targetType);
      IdsOfRows(users, keep);
      IdsOf(Filter(users, keep))
  }

  /** The `filter(...)` conditions of the three target types. */
  predicate Selected(u: User, adminIds: set<int>, targetType: string) {
    && !u.isBlocked
    && (targetType == "clients" ==> u.id !in adminIds)
    && (targetType == "restaurants" ==> u.id in adminIds)
  }

  /** The `id` column of the rows, in row order. */
  function IdsOf(rows: seq<User>): (ids: seq<int>)
    ensures |ids| == |rows| && forall k | 0 <= k < |rows| :: ids[k] == rows[k].id
  {
    seq(|rows|, k requires 0 <= k < |rows| => rows[k].id)
  }

  /** The ids of the kept rows are the ids of the rows the test accepts. */
  lemma IdsOfRows(users: seq<User>, keep: User -> bool)
    ensures forall x :: x in IdsOf(Filter(users, keep)) <==> exists k :: 0 <= k < |users| && users[k].id == x && keep(users[k])
  {
    var picked := Filter(users, keep);
    var ids := IdsOf(picked);
    forall x ensures x in ids <==> exists k :: 0 <= k < |users| && users[k].id == x && keep(users[k]) {
      if x in ids {
        var j :| 0 <= j < |ids| && ids[j] == x;
        assert picked[j] in users;
        var k :| 0 <= k < |users| && users[k] == picked[j];
      }
      if exists k :: 0 <= k < |users| && users[k].id == x && keep(users[k]) {
        var k :| 0 <= k < |users| && users[k].id == x && keep(users[k]);
        assert users[k] in picked;
        var j :| 0 <= j < |picked| && picked[j] == users[k];
        assert ids[j] == x;
      }
    }
  }

  /** Clients and restaurant admins split the unblocked users: every
      unblocked user is in exactly one of the two lists, and the two lists
      together are as long as `all`. */
  lemma TargetsPartition(users: seq<User>, adminIds: set<int>)
    ensures var all := GetTargetUsers(users, adminIds, "all");
      var clients := GetTargetUsers(users, adminIds, "clients");
      var admins := GetTargetUsers(users, adminIds, "restaurants");
      && |clients| + |admins| == |all|
      && (forall x | x in all :: (x in clients) != (x in admins))
      && (forall x | x in clients || x in admins :: x in all)
  {
    var picked := Filter(users, (u: User) => Selected(u, adminIds, "all"));
    FilterSplit(picked, (u: User) => Selected(u, adminIds, "clients"), (u: User) => Selected(u, adminIds, "restaurants"));
    FilterOfFilter(users, adminIds, "clients");
    FilterOfFilter(users, adminIds, "restaurants");
  }

  /** Choosing clients (or admins) among the unblocked users is choosing
      them among all users. */
  lemma {:induction false} FilterOfFilter(users: seq<User>, adminIds: set<int>, targetType: string)
    requires targetType == "clients" || targetType == "restaurants"
    ensures Filter(Filter(users, (u: User) => Selected(u, adminIds, "all")), (u: User) => Selected(u, adminIds, targetType))
         == Filter(users, (u: User) => Selected(u, adminIds, targetType))
    decreases |users|
  {
    if |users| > 0 {
      FilterOfFilter(users[1..], adminIds, targetType);
    }
  }

  // ----- broadcast sending -----

  datatype BroadcastResult = BroadcastError(message: string) | Done(sent: nat, failed: nat, total: nat)

  /** How many of the first `n` sends succeed. */
  function CountOk(n: nat, sendOk: nat -> bool): (c: nat)
    ensures c <= n
  {
    if n == 0 then 0 else CountOk(n - 1, sendOk) + (if sendOk(n - 1) then 1 else 0)
  }

  /** The send loop: every recipient is tried once; a failing send is
      counted and the loop goes on. */
  method SendAll(recipients: seq<int>, sendOk: nat -> bool) returns (sent: nat, failed: nat)
    ensures sent + failed == |recipients|
    ensures sent == CountOk(|recipients|, sendOk)
  {
    sent, failed := 0, 0;
    var i := 0;
    while i < |recipients|
      invariant i <= |recipients|
      invariant sent + failed == i
      invariant sent == CountOk(i, sendOk)
    {
      if sendOk(i) {
        sent := sent + 1;
      } else {
        failed := failed + 1;
      }
      i := i + 1;
    }
  }

  /** `broadcast`: no recipients, or no bot, is reported before any send;
      otherwise every recipient is tried and the counters add up to the
      number of recipients, which is positive, so the success rate in the
      report never divides by zero. */
  method Broadcast(users: seq<User>, adminIds: set<int>, targetType: string, botReady: bool, sendOk: nat -> bool)
    returns (r: BroadcastResult)
    ensures GetTargetUsers(users, adminIds, targetType) == [] <==> r == BroadcastError("Нет получателей для рассылки")
    ensures GetTargetUsers(users, adminIds, targetType) != [] && !botReady ==> r == BroadcastError("Bot not initialized")
    ensures r.Done? ==> r.total == |GetTargetUsers(users, adminIds, targetType)| && r.sent + r.failed == r.total && r.total > 0
    ensures r.Done? <==> GetTargetUsers(users, adminIds, targetType) != [] && botReady
  {
    var targets := GetTargetUsers(users, adminIds, targetType);
    if targets == [] {
      return BroadcastError("Нет получателей для рассылки");
    }
    if !botReady {
      return BroadcastError("Bot not initialized");
    }
    var sent, failed := SendAll(targets, sendOk);
    r := Done(sent, failed, |targets|);
  }

  /** What each recipient receives. */
  datatype Delivery = Photo | Video | PlainText | TextWithFileNote

  /** `/broadcast` per recipient: a photo or video needs both the media type
      and a non-empty Telegram file id; anything else is plain text. */
  function BroadcastDelivery(mediaType: Option<string>, fileId: Option<string>): (d: Delivery)
    ensures d == Photo <==> mediaType == Some("photo") && fileId.Some? && fileId.value != ""
    ensures d == Video <==> mediaType == Some("video") && fileId.Some? && fileId.value != ""
    ensures d != TextWithFileNote
  {
    if mediaType == Some("photo") && fileId.Some? && fileId.value != "" then Photo
    else if mediaType == Some("video") && fileId.Some? && fileId.value != "" then Video
    else PlainText
  }

  /** An uploaded attachment: its content type and its size in bytes. */
  datatype Upload = Upload(contentType: Option<string>, size: nat)

  const MaxMediaSize: nat := 20 * 1024 * 1024

  /** The attachment checks of `/broadcast-with-media`: without an
      attachment (or without a content type) the broadcast is text only; an
      empty or oversized file is refused; otherwise the content type picks
      photo, video, or a text noting the attached file. */
  function MediaDelivery(media: Option<Upload>): (r: Result)
    ensures media.None? || media.value.contentType.None? || media.value.contentType.value == "" ==> r == Deliver(PlainText)
    ensures media.Some? && media.value.contentType.Some? && media.value.contentType.value != "" ==>
      && (media.value.size == 0 <==> r == Refuse("Медиа файл пустой или поврежден"))
      && (media.value.size > MaxMediaSize <==> r == Refuse("Файл слишком большой. Максимальный размер: 20MB"))
      && (r.Deliver? ==> 0 < media.value.size <= MaxMediaSize)
      && (r == Deliver(Photo) <==> r.Deliver? && StartsWith(media.value.contentType.value, "image/"))
      && (r == Deliver(Video) <==> r.Deliver? && !StartsWith(media.value.contentType.value, "image/") && StartsWith(media.value.contentType.value, "video/"))
    ensures (media.Some? && media.value.contentType.Some? && media.value.contentType.value != "" &&
             0 < media.value.size <= MaxMediaSize) ==> r.Deliver?
    ensures r == Deliver(TextWithFileNote) <==>
      && r.Deliver? && media.Some? && media.value.contentType.Some? && media.value.contentType.value != ""
      && !StartsWith(media.value.contentType.value, "image/") && !StartsWith(media.value.contentType.value, "video/")
    ensures r != Deliver(PlainText) ==> media.Some?
  {
    if media.None? || media.value.contentType.None? || media.value.contentType.value == "" then Deliver(PlainText)
    else if media.value.size == 0 then Refuse("Медиа файл пустой или поврежден")
    else if media.value.size > MaxMediaSize then Refuse("Файл слишком большой. Максимальный размер: 20MB")
    else
      var ct := media.value.contentType.value;
      if StartsWith(ct, "image/") then Deliver(Photo)
      else if StartsWith(ct, "video/") then Deliver(Video)
      else Deliver(TextWithFileNote)
  }

  datatype Result = Deliver(d: Delivery) | Refuse(message: string)

  /** Only the size decides whether an attachment is accepted: a file of
      the same type that is smaller, but not empty, goes out the same
      way. */
  lemma MediaAcceptsSmaller(contentType: Option<string>, size: nat, smaller: nat)
    requires MediaDelivery(Some(Upload(contentType, size))).Deliver?
    requires 0 < smaller <= size
    ensures MediaDelivery(Some(Upload(contentType, smaller))) == MediaDelivery(Some(Upload(contentType, size)))
  {
  }

  /** `/broadcast-with-media`: the recipient and bot checks come first, then
      the attachment checks, then the same send loop. */
  method BroadcastWithMedia(users: seq<User>, adminIds: set<int>, recipients: string, botReady: bool,
                            media: Option<Upload>, sendOk: nat -> bool)
    returns (r: BroadcastResult, delivery: Option<Delivery>)
    ensures GetTargetUsers(users, adminIds, recipients) == [] ==> r == BroadcastError("Нет получателей для рассылки")
    ensures GetTargetUsers(users, adminIds, recipients) != [] && !botReady ==> r == BroadcastError("Bot not initialized")
    ensures r.Done? <==> GetTargetUsers(users, adminIds, recipients) != [] && botReady && MediaDelivery(media).Deliver?
    ensures r.Done? ==> delivery == Some(MediaDelivery(media).d) && r.sent + r.failed == r.total == |GetTargetUsers(users, adminIds, recipients)|
    ensures GetTargetUsers(users, adminIds, recipients) != [] && botReady && MediaDelivery(media).Refuse? ==>
      r == BroadcastError(MediaDelivery(media).message)
  {
    delivery := None;
    var targets := GetTargetUsers(users, adminIds, recipients);
    if targets == [] {
      return BroadcastError("Нет получателей для рассылки"), None;
    }
    if !botReady {
      return BroadcastError("Bot not initialized"), None;
    }
    match MediaDelivery(media)
    case Refuse(message) =>
      r := BroadcastError(message);
    case Deliver(d) =>
      var sent, failed := SendAll(targets, sendOk);
      r, delivery := Done(sent, failed, |targets|), Some(d);
  }

  // ----- statistics -----

  /** The calendar date of a UTC timestamp; the time of day plays no part
      in the statistics. */
  datatype Date = Date(year: int, month: int, day: int)

  datatype Order = Order(createdAt: Date, totalPrice: int, status: string)

  predicate SameDay(a: Date, b: Date) {
    a.year == b.year && a.month == b.month && a.day == b.day
  }

  predicate SameMonth(a: Date, b: Date) {
    a.year == b.year && a.month == b.month
  }

  /** Days in the same date fall in the same month. */
  lemma SameDayIsSameMonth(a: Date, b: Date)
    ensures SameDay(a, b) ==> SameMonth(a, b)
  {
  }

  datatype Summary = Summary(orders: nat, sum: int, cancelled: nat, modified: nat)

  function PriceSum(orders: seq<Order>): int {
    if |orders| == 0 then 0 else orders[0].totalPrice + PriceSum(orders[1..])
  }

  /** `summarize(filter_fn)`: the number of matching orders, their price
      total, and how many of them are cancelled or modified. */
  function Summarize(orders: seq<Order>, keep: Order -> bool): (s: Summary)
    ensures s.orders == |Filter(orders, keep)|
    ensures s.sum == PriceSum(Filter(orders, keep))
    ensures s.cancelled == |Filter(Filter(orders, keep), (o: Order) => o.status == "cancelled")|
    ensures s.modified == |Filter(Filter(orders, keep), (o: Order) => o.status == "modified")|
    ensures s.cancelled + s.modified <= s.orders
  {
    var picked := Filter(orders, keep);
    FilterSplitStatus(picked);
    Summary(|picked|, PriceSum(picked),
            |Filter(picked, (o: Order) => o.status == "cancelled")|,
            |Filter(picked, (o: Order) => o.status == "modified")|)
  }

  /** No order is both cancelled and modified. */
  lemma FilterSplitStatus(picked: seq<Order>)
    ensures |Filter(picked, (o: Order) => o.status == "cancelled")| + |Filter(picked, (o: Order) => o.status == "modified")| <= |picked|
  {
    FilterMonotone(picked, (o: Order) => o.status == "modified", (o: Order) => o.status != "cancelled");
    FilterSplit(picked, (o: Order) => o.status == "cancelled", (o: Order) => o.status != "cancelled");
  }

  datatype Stats = Stats(today: Summary, month: Summary)

  /** `_aggregate(orders, now)`. */
  function Aggregate(orders: seq<Order>, now: Date): (st: Stats)
    ensures st.today == Summarize(orders, (o: Order) => SameDay(o.createdAt, now))
    ensures st.month == Summarize(orders, (o: Order) => SameMonth(o.createdAt, now))
    ensures st.today.cancelled + st.today.modified <= st.today.orders
    ensures st.month.cancelled + st.month.modified <= st.month.orders
  {
    Stats(Summarize(orders, (o: Order) => SameDay(o.createdAt, now)), Summarize(orders, (o: Order) => SameMonth(o.createdAt, now)))
  }

  /** Today's orders are among this month's. */
  lemma TodayWithinMonth(orders: seq<Order>, now: Date)
    ensures Aggregate(orders, now).today.orders <= Aggregate(orders, now).month.orders
  {
    FilterMonotone(orders, (o: Order) => SameDay(o.createdAt, now), (o: Order) => SameMonth(o.createdAt, now));
  }

  // ----- dish cascade delete -----

  datatype Dish = Dish(id: int, name: string)
  datatype OptionGroup = OptionGroup(id: int, dishId: int)
  datatype DishOption = DishOption(id: int, groupId: int)
  datatype CartRow = CartRow(id: int, dishId: int)
  datatype OrderItemRow = OrderItemRow(id: int, orderId: int, dishId: int)

  datatype Catalog = Catalog(
    dishes: seq<Dish>, groups: seq<OptionGroup>, options: seq<DishOption>,
    cartItems: seq<CartRow>, orderItems: seq<OrderItemRow>)

  function GroupIdsOf(groups: seq<OptionGroup>, dishId: int): set<int> {
    set k | 0 <= k < |groups| && groups[k].dishId == dishId :: groups[k].id
  }

  function FindDish(dishes: seq<Dish>, id: int): (r: Option<nat>)
    ensures r.None? <==> forall k | 0 <= k < |dishes| :: dishes[k].id != id
    ensures r.Some? ==> r.value < |dishes| && dishes[r.value].id == id
  {
    if |dishes| == 0 then None
    else if dishes[0].id == id then Some(0)
    else
      match FindDish(dishes[1..], id)
      case None => None
      case Some(j) => Some(j + 1)
  }

  /** `delete_dish`: 404 for an unknown dish; otherwise the options of the
      dish's option groups, those groups, the cart lines and the order lines
      of the dish go, and then the dish row itself. */
  function DeleteDish(c: Catalog, dishId: int): (r: Response<Catalog>)
    ensures FindDish(c.dishes, dishId).None? <==> r == HttpError(404, "Dish not found")
    ensures r.Ok? ==>
      var i := FindDish(c.dishes, dishId).value;
      && r.value.dishes == c.dishes[..i] + c.dishes[i + 1..]
      && (forall k | 0 <= k < |r.value.groups| :: r.value.groups[k].dishId != dishId)
      && (forall k | 0 <= k < |r.value.options| :: r.value.options[k].groupId !in GroupIdsOf(c.groups, dishId))
      && (forall k | 0 <= k < |r.value.cartItems| :: r.value.cartItems[k].dishId != dishId)
      && (forall k | 0 <= k < |r.value.orderItems| :: r.value.orderItems[k].dishId != dishId)
    ensures r.Ok? ==>
      && r.value.groups == Filter(c.groups, (g: OptionGroup) => g.id !in GroupIdsOf(c.groups, dishId))
      && r.value.options == Filter(c.options, (o: DishOption) => o.groupId !in GroupIdsOf(c.groups, dishId))
      && r.value.cartItems == Filter(c.cartItems, (x: CartRow) => x.dishId != dishId)
      && r.value.orderItems == Filter(c.orderItems, (x: OrderItemRow) => x.dishId != dishId)
  {
    match FindDish(c.dishes, dishId)
    case None => HttpError(404, "Dish not found")
    case Some(i) =>
      var gids := GroupIdsOf(c.groups, dishId);
      var groups := Filter(c.groups, (g: OptionGroup) => g.id !in gids);
      Ok(Catalog(c.dishes[..i] + c.dishes[i + 1..], groups,
                 Filter(c.options, (o: DishOption) => o.groupId !in gids),
                 Filter(c.cartItems, (x: CartRow) => x.dishId != dishId),
                 Filter(c.orderItems, (x: OrderItemRow) => x.dishId != dishId)))
  }

  // ----- dish image upload -----

  /** `upload_dish_image`: a content type not starting with `image/` is
      refused with 400 (a missing one fails on `startswith`); the stored
      file keeps the text after the file name's last `.` as its extension,
      or `jpg` when the name has no `.`. */
  function UploadExtension(contentType: Option<string>, filename: string): (r: Response<string>)
    ensures contentType.None? ==> r == Raised("AttributeError")
    ensures contentType.Some? && !StartsWith(contentType.value, "image/") ==> r == HttpError(400, "File must be an image")
    ensures contentType.Some? && StartsWith(contentType.value, "image/") ==> r.Ok?
    ensures r.Ok? && '.' !in filename ==> r.value == "jpg"
    ensures r.Ok? && '.' in filename ==>
      '.' !in r.value && |r.value| < |filename| && filename == filename[..|filename| - |r.value| - 1] + "." + r.value
  {
    if contentType.None? then Raised("AttributeError")
    else if !StartsWith(contentType.value, "image/") then HttpError(400, "File must be an image")
    else if '.' in filename then Ok(AfterLast(filename, '.'))
    else Ok("jpg")
  }

  /** An image named `<stem>.<ext>` keeps `ext`, whatever dots the stem
      holds. */
  lemma UploadKeepsExtension(contentType: string, stem: string, ext: string)
    requires StartsWith(contentType, "image/")
    requires '.' !in ext
    ensures UploadExtension(Some(contentType), stem + "." + ext) == Ok(ext)
  {
    AfterLastUnique(stem, ext, '.');
  }
}
