/** The public home-page collections: enabled collections and their
    enabled items in `(sort_order, id)` order, each item enriched with the
    restaurant or dish it points to when that row exists, and the
    restaurant rating computed from active reviews. */
module Public {
  import opened Wrappers
  import opened Seqs
  import opened Sorting
  import Reviews

  datatype Collection = Collection(id: int, name: string, description: string, image: string, isEnabled: bool, sortOrder: int)

  datatype CollectionItem = CollectionItem(
    id: int, collectionId: int, itemType: string, itemId: int,
    title: string, subtitle: string, image: string, linkUrl: string,
    isEnabled: bool, sortOrder: int)

  datatype Restaurant = Restaurant(id: int, name: string, deliveryMinSum: int, deliveryFee: int, deliveryTimeMinutes: int)

  datatype Dish = Dish(id: int, name: string, price: int, description: string, restaurantId: int)

  datatype Tables = Tables(
    collections: seq<Collection>, items: seq<CollectionItem>,
    restaurants: seq<Restaurant>, dishes: seq<Dish>, reviews: seq<Reviews.Review>)

  /** The seven fields every emitted item carries. */
  datatype ItemBase = ItemBase(id: int, itemType: string, itemId: int, title: string, subtitle: string, image: string, linkUrl: string)

  datatype RestaurantCard = RestaurantCard(id: int, name: string, rating: real, deliveryMinSum: int, deliveryFee: int, deliveryTimeMinutes: int)

  datatype DishCard = DishCard(id: int, name: string, price: int, description: string)

  datatype ItemOut = ItemOut(base: ItemBase, restaurant: Option<RestaurantCard>, dish: Option<DishCard>)

  datatype CollectionOut = CollectionOut(id: int, name: string, description: string, image: string, items: seq<ItemOut>)

  /** `get_restaurant_rating`: the average of the active reviews, 0 when
      there are none (the rounding to one decimal is not modelled). */
  function RestaurantRating(reviews: seq<Reviews.Review>, restaurantId: int): (rating: real)
    ensures rating == Reviews.AverageRating(reviews, restaurantId)
    ensures |Reviews.ActiveOf(reviews, restaurantId)| == 0 ==> rating == 0.0
    ensures (forall k | 0 <= k < |reviews| :: Reviews.ValidRating(reviews[k].rating)) ==> rating == 0.0 || 1.0 <= rating <= 5.0
  {
    if forall k | 0 <= k < |reviews| :: Reviews.ValidRating(reviews[k].rating) then
      Reviews.AverageRatingInRange(reviews, restaurantId);
      Reviews.AverageRating(reviews, restaurantId)
    else Reviews.AverageRating(reviews, restaurantId)
  }

  function FindRestaurant(rs: seq<Restaurant>, id: int): (r: Option<Restaurant>)
    ensures r.None? <==> forall k | 0 <= k < |rs| :: rs[k].id != id
    ensures r.Some? ==> r.value in rs && r.value.id == id
  {
    if |rs| == 0 then None
    else if rs[0].id == id then Some(rs[0])
    else FindRestaurant(rs[1..], id)
  }

  function FindDish(ds: seq<Dish>, id: int): (r: Option<Dish>)
    ensures r.None? <==> forall k | 0 <= k < |ds| :: ds[k].id != id
    ensures r.Some? ==> r.value in ds && r.value.id == id
  {
    if |ds| == 0 then None
    else if ds[0].id == id then Some(ds[0])
    else FindDish(ds[1..], id)
  }

  predicate RestaurantExists(t: Tables, id: int) {
    exists k :: 0 <= k < |t.restaurants| && t.restaurants[k].id == id
  }

  predicate DishExists(t: Tables, id: int) {
    exists k :: 0 <= k < |t.dishes| && t.dishes[k].id == id
  }

  function Card(t: Tables, r: Restaurant): RestaurantCard {
    RestaurantCard(r.id, r.name, RestaurantRating(t.reviews, r.id), r.deliveryMinSum, r.deliveryFee, r.deliveryTimeMinutes)
  }

  /** One emitted item: the base fields always; a restaurant item gets its
      restaurant's card when the restaurant exists; a dish item gets the
      dish's card when the dish exists, and also the card of the dish's
      restaurant when that exists too; other types get neither. */
  function Enrich(t: Tables, item: CollectionItem): (out: ItemOut)
    ensures out.base == ItemBase(item.id, item.itemType, item.itemId, item.title, item.subtitle, item.image, item.linkUrl)
    ensures item.itemType == "restaurant" ==> out.dish.None? && (out.restaurant.Some? <==> RestaurantExists(t, item.itemId))
    ensures item.itemType == "dish" ==> (out.dish.Some? <==> DishExists(t, item.itemId))
    ensures item.itemType == "dish" ==>
      (out.restaurant.Some? <==> DishExists(t, item.itemId) && RestaurantExists(t, FindDish(t.dishes, item.itemId).value.restaurantId))
    ensures item.itemType != "restaurant" && item.itemType != "dish" ==> out.restaurant.None? && out.dish.None?
    ensures out.restaurant.Some? ==> out.restaurant.value.rating == RestaurantRating(t.reviews, out.restaurant.value.id)
    ensures item.itemType == "restaurant" && out.restaurant.Some? ==>
      out.restaurant.value == Card(t, FindRestaurant(t.restaurants, item.itemId).value) && out.restaurant.value.id == item.itemId
    ensures item.itemType == "dish" && out.dish.Some? ==>
      var d := FindDish(t.dishes, item.itemId).value;
      && out.dish.value == DishCard(d.id, d.name, d.price, d.description)
      && out.dish.value.id == item.itemId
      && (out.restaurant.Some? ==>
            out.restaurant.value == Card(t, FindRestaurant(t.restaurants, d.restaurantId).value) && out.restaurant.value.id == d.restaurantId)
  {
    var base := ItemBase(item.id, item.itemType, item.itemId, item.title, item.subtitle, item.image, item.linkUrl);
    if item.itemType == "restaurant" then
      match FindRestaurant(t.restaurants, item.itemId)
      case None => ItemOut(base, None, None)
      case Some(r) => ItemOut(base, Some(Card(t, r)), None)
    else if item.itemType == "dish" then
      match FindDish(t.dishes, item.itemId)
      case None => ItemOut(base, None, None)
      case Some(d) =>
        var card := DishCard(d.id, d.name, d.price, d.description);
        match FindRestaurant(t.restaurants, d.restaurantId)
        case None => ItemOut(base, None, Some(card))
        case Some(r) => ItemOut(base, Some(Card(t, r)), Some(card))
    else ItemOut(base, None, None)
  }

  function CollectionKey(c: Collection): (int, int) {
    (c.sortOrder, c.id)
  }

  function ItemKey(i: CollectionItem): (int, int) {
    (i.sortOrder, i.id)
  }

  /** The enabled items of a collection in `(sort_order, id)` order. */
  function ItemsOf(t: Tables, collectionId: int): (items: seq<CollectionItem>)
    ensures SortedBy(items, ItemKey)
    ensures forall k | 0 <= k < |items| :: items[k].collectionId == collectionId && items[k].isEnabled && items[k] in t.items
    ensures forall k | 0 <= k < |t.items| && t.items[k].collectionId == collectionId && t.items[k].isEnabled :: t.items[k] in items
    ensures multiset(items) == multiset(Filter(t.items, (i: CollectionItem) => i.collectionId == collectionId && i.isEnabled))
  {
    var picked := Filter(t.items, (i: CollectionItem) => i.collectionId == collectionId && i.isEnabled);
    var sorted := SortBy(picked, ItemKey);
    SameMembers(sorted, picked);
    sorted
  }

  /** The enabled collections in `(sort_order, id)` order. */
  function EnabledCollections(t: Tables): (cs: seq<Collection>)
    ensures SortedBy(cs, CollectionKey)
    ensures forall k | 0 <= k < |cs| :: cs[k].isEnabled && cs[k] in t.collections
    ensures forall k | 0 <= k < |t.collections| && t.collections[k].isEnabled :: t.collections[k] in cs
    ensures multiset(cs) == multiset(Filter(t.collections, (c: Collection) => c.isEnabled))
  {
    var picked := Filter(t.collections, (c: Collection) => c.isEnabled);
    var sorted := SortBy(picked, CollectionKey);
    SameMembers(sorted, picked);
    sorted
  }

  function Emit(t: Tables, c: Collection): CollectionOut {
    var items := ItemsOf(t, c.id);
    CollectionOut(c.id, c.name, c.description, c.image, seq(|items|, k requires 0 <= k < |items| => Enrich(t, items[k])))
  }

  /** `get_public_collections`: one entry per enabled collection, in order,
      each listing every enabled item of it, in order, enriched. */
  function GetPublicCollections(t: Tables): (out: seq<CollectionOut>)
    ensures |out| == |EnabledCollections(t)|
    ensures forall k | 0 <= k < |out| ::
      var c := EnabledCollections(t)[k];
      out[k].id == c.id && out[k].name == c.name && out[k].description == c.description && out[k].image == c.image
    ensures forall k | 0 <= k < |out| ::
      var items := ItemsOf(t, out[k].id);
      |out[k].items| == |items| && forall m | 0 <= m < |items| :: out[k].items[m] == Enrich(t, items[m])
  {
    var cs := EnabledCollections(t);
    seq(|cs|, k requires 0 <= k < |cs| => Emit(t, cs[k]))
  }
}
