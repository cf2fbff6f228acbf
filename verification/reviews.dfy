/** Order reviews and app reviews: who may review, the one-active-review
    rules, the restaurant's average rating, and the fields of the public
    review list. Tables are sequences of rows; the database's new row id is
    a parameter. */
module Reviews {
  import opened Wrappers
  import opened Text
  import opened Seqs

  datatype OrderRow = OrderRow(id: int, userId: int)

  datatype Review = Review(id: int, orderId: int, restaurantId: int, userId: int, rating: int, comment: string, isDeleted: bool)

  datatype AppReview = AppReview(id: int, userId: int, rating: int, comment: string, isDeleted: bool)

  /** The `rating` field's bounds on both request models. */
  predicate ValidRating(rating: int) {
    1 <= rating <= 5
  }

  datatype ReviewCreate = ReviewCreate(orderId: int, restaurantId: int, rating: int, comment: Option<string>)

  /** `comment or ""`: a missing or empty comment is stored as "". */
  function StoredComment(comment: Option<string>): (c: string)
    ensures comment.Some? ==> c == comment.value
    ensures comment.None? ==> c == ""
  {
    comment.GetOr("")
  }

  /** The user owns an order with that id. */
  predicate OwnsOrder(orders: seq<OrderRow>, orderId: int, userId: int) {
    exists k :: 0 <= k < |orders| && orders[k].id == orderId && orders[k].userId == userId
  }

  /** An active review of that order by that user exists. */
  predicate HasActiveReview(reviews: seq<Review>, orderId: int, userId: int) {
    exists k :: 0 <= k < |reviews| && ActiveFor(reviews[k], orderId, userId)
  }

  predicate ActiveFor(r: Review, orderId: int, userId: int) {
    !r.isDeleted && r.orderId == orderId && r.userId == userId
  }

  /** At most one active review per (order, user). */
  predicate OneActivePerOrder(reviews: seq<Review>) {
    forall i, j | 0 <= i < j < |reviews| && !reviews[i].isDeleted && !reviews[j].isDeleted ::
      reviews[i].orderId != reviews[j].orderId || reviews[i].userId != reviews[j].userId
  }

  /** `create_review`: a rating outside 1..5 is refused by validation (422);
      an order the user does not own is 404; an existing active review of
      it by the user is 400; otherwise the review is stored with the
      request's restaurant id and the restaurant's rating recomputed. */
  function CreateReview(orders: seq<OrderRow>, reviews: seq<Review>, userId: int, body: ReviewCreate, newId: int): (r: Response<seq<Review>>)
    ensures !ValidRating(body.rating) ==> r == HttpError(422, "rating")
    ensures ValidRating(body.rating) && !OwnsOrder(orders, body.orderId, userId) ==> r == HttpError(404, "order_not_found")
    ensures ValidRating(body.rating) && OwnsOrder(orders, body.orderId, userId) && HasActiveReview(reviews, body.orderId, userId) ==>
      r == HttpError(400, "already_reviewed")
    ensures r.Ok? <==> ValidRating(body.rating) && OwnsOrder(orders, body.orderId, userId) && !HasActiveReview(reviews, body.orderId, userId)
    ensures r.Ok? ==> r.value == reviews + [Review(newId, body.orderId, body.restaurantId, userId, body.rating, StoredComment(body.comment), false)]
  {
    if !ValidRating(body.rating) then HttpError(422, "rating")
    else if !OwnsOrder(orders, body.orderId, userId) then HttpError(404, "order_not_found")
    else if HasActiveReview(reviews, body.orderId, userId) then HttpError(400, "already_reviewed")
    else Ok(reviews + [Review(newId, body.orderId, body.restaurantId, userId, body.rating, StoredComment(body.comment), false)])
  }

  /** Creating reviews keeps at most one active review per (order, user). */
  lemma CreateReviewKeepsOneActive(orders: seq<OrderRow>, reviews: seq<Review>, userId: int, body: ReviewCreate, newId: int)
    requires OneActivePerOrder(reviews)
    requires CreateReview(orders, reviews, userId, body, newId).Ok?
    ensures OneActivePerOrder(CreateReview(orders, reviews, userId, body, newId).value)
  {
    var after := CreateReview(orders, reviews, userId, body, newId).value;
    forall i, j | 0 <= i < j < |after| && !after[i].isDeleted && !after[j].isDeleted
      ensures after[i].orderId != after[j].orderId || after[i].userId != after[j].userId
    {
      if j == |reviews| {
        assert !ActiveFor(reviews[i], body.orderId, userId);
      }
    }
  }

  /** A second identical request is refused, and a user can never review an
      order of someone else. */
  lemma CreateReviewTwiceRefused(orders: seq<OrderRow>, reviews: seq<Review>, userId: int, body: ReviewCreate, id1: int, id2: int)
    requires CreateReview(orders, reviews, userId, body, id1).Ok?
    ensures CreateReview(orders, CreateReview(orders, reviews, userId, body, id1).value, userId, body, id2) == HttpError(400, "already_reviewed")
  {
    var after := CreateReview(orders, reviews, userId, body, id1).value;
    assert ActiveFor(after[|reviews|], body.orderId, userId);
  }

  predicate OneActiveAppReview(reviews: seq<AppReview>) {
    forall i, j | 0 <= i < j < |reviews| && !reviews[i].isDeleted && !reviews[j].isDeleted :: reviews[i].userId != reviews[j].userId
  }

  predicate HasActiveAppReview(reviews: seq<AppReview>, userId: int) {
    exists k :: 0 <= k < |reviews| && !reviews[k].isDeleted && reviews[k].userId == userId
  }

  /** `create_app_review`: one active app review per user; a second one is
      400. */
  function CreateAppReview(reviews: seq<AppReview>, userId: int, rating: int, comment: Option<string>, newId: int): (r: Response<seq<AppReview>>)
    ensures !ValidRating(rating) ==> r == HttpError(422, "rating")
    ensures ValidRating(rating) && HasActiveAppReview(reviews, userId) ==> r == HttpError(400, "already_reviewed")
    ensures r.Ok? <==> ValidRating(rating) && !HasActiveAppReview(reviews, userId)
    ensures r.Ok? ==> r.value == reviews + [AppReview(newId, userId, rating, StoredComment(comment), false)]
  {
    if !ValidRating(rating) then HttpError(422, "rating")
    else if HasActiveAppReview(reviews, userId) then HttpError(400, "already_reviewed")
    else Ok(reviews + [AppReview(newId, userId, rating, StoredComment(comment), false)])
  }

  lemma CreateAppReviewKeepsOneActive(reviews: seq<AppReview>, userId: int, rating: int, comment: Option<string>, newId: int)
    requires OneActiveAppReview(reviews)
    ensures CreateAppReview(reviews, userId, rating, comment, newId).Ok? ==>
      OneActiveAppReview(CreateAppReview(reviews, userId, rating, comment, newId).value)
  {
  }

  // ----- ratings -----

  /** The active reviews of a restaurant, in table order. */
  function ActiveOf(reviews: seq<Review>, restaurantId: int): seq<Review> {
    Filter(reviews, (r: Review) => r.restaurantId == restaurantId && !r.isDeleted)
  }

  function RatingSum(reviews: seq<Review>): int {
    if |reviews| == 0 then 0 else reviews[0].rating + RatingSum(reviews[1..])
  }

  /** Ratings in 1..5 sum to between n and 5n. */
  lemma {:induction false} RatingSumBounds(reviews: seq<Review>)
    requires forall k | 0 <= k < |reviews| :: ValidRating(reviews[k].rating)
    ensures |reviews| <= RatingSum(reviews) <= 5 * |reviews|
    decreases |reviews|
  {
    if |reviews| > 0 {
      assert forall k | 0 <= k < |reviews[1..]| :: reviews[1..][k] == reviews[k + 1];
      RatingSumBounds(reviews[1..]);
    }
  }

  /** `func.avg(rating)` over the restaurant's active reviews, with SQL's
      NULL for no rows turned into 0 by `avg or 0.0`. The rounding to one
      decimal is not modelled. */
  function AverageRating(reviews: seq<Review>, restaurantId: int): (avg: real)
    ensures |ActiveOf(reviews, restaurantId)| == 0 ==> avg == 0.0
    ensures |ActiveOf(reviews, restaurantId)| > 0 ==>
      avg * (|ActiveOf(reviews, restaurantId)| as real) == RatingSum(ActiveOf(reviews, restaurantId)) as real
  {
    var active := ActiveOf(reviews, restaurantId);
    if |active| == 0 then 0.0 else (RatingSum(active) as real) / (|active| as real)
  }

  /** A quotient of a sum lying between n and 5n by n lies in [1, 5]. */
  lemma MeanBounds(s: real, n: real)
    requires n > 0.0 && n <= s <= 5.0 * n
    ensures 1.0 <= s / n <= 5.0
  {
    var q := s / n;
    assert q * n == s;
    assert (q - 1.0) * n == s - n;
    assert (5.0 - q) * n == 5.0 * n - s;
  }

  /** With valid ratings, a reviewed restaurant's average lies in [1, 5]. */
  lemma AverageRatingInRange(reviews: seq<Review>, restaurantId: int)
    requires forall k | 0 <= k < |reviews| :: ValidRating(reviews[k].rating)
    ensures var avg := AverageRating(reviews, restaurantId);
      |ActiveOf(reviews, restaurantId)| > 0 ==> 1.0 <= avg <= 5.0
  {
    var active := ActiveOf(reviews, restaurantId);
    assert forall k | 0 <= k < |active| :: ValidRating(active[k].rating) by {
      forall k | 0 <= k < |active| ensures ValidRating(active[k].rating) {
        assert active[k] in reviews;
      }
    }
    RatingSumBounds(active);
    if |active| > 0 {
      MeanBounds(RatingSum(active) as real, |active| as real);
    }
  }

  datatype RestaurantRow = RestaurantRow(id: int, ratingAgg: real)

  /** `update_restaurant_rating`: the first restaurant with the id gets the
      new average; an unknown id changes nothing. */
  function UpdateRestaurantRating(restaurants: seq<RestaurantRow>, reviews: seq<Review>, restaurantId: int): (r: seq<RestaurantRow>)
    ensures |r| == |restaurants|
    ensures forall k | 0 <= k < |r| :: r[k].id == restaurants[k].id
    ensures (forall k | 0 <= k < |restaurants| :: restaurants[k].id != restaurantId) ==> r == restaurants
    ensures forall k | 0 <= k < |r| && r[k] != restaurants[k] ::
      restaurants[k].id == restaurantId && r[k].ratingAgg == AverageRating(reviews, restaurantId)
    ensures forall k | 0 <= k < |r| && FirstWithId(restaurants, restaurantId, k) ::
      r[k].ratingAgg == AverageRating(reviews, restaurantId)
  {
    if |restaurants| == 0 then []
    else if restaurants[0].id == restaurantId then
      [restaurants[0].(ratingAgg := AverageRating(reviews, restaurantId))] + restaurants[1..]
    else
      var rest := UpdateRestaurantRating(restaurants[1..], reviews, restaurantId);
      assert forall k | 1 <= k < |restaurants| && FirstWithId(restaurants, restaurantId, k) ::
        FirstWithId(restaurants[1..], restaurantId, k - 1);
      [restaurants[0]] + rest
  }

  /** Row `k` is the first row with the id. */
  predicate FirstWithId(restaurants: seq<RestaurantRow>, restaurantId: int, k: int) {
    && 0 <= k < |restaurants|
    && restaurants[k].id == restaurantId
    && forall j | 0 <= j < k :: restaurants[j].id != restaurantId
  }

  /** After a review is created, the reviewed restaurant's row (the first
      with its id) stores the average including the new review, which lies
      in [1, 5] when the earlier ratings are valid. */
  lemma RatingAfterCreate(orders: seq<OrderRow>, reviews: seq<Review>, restaurants: seq<RestaurantRow>, userId: int, body: ReviewCreate, newId: int, i: nat)
    requires CreateReview(orders, reviews, userId, body, newId).Ok?
    requires FirstWithId(restaurants, body.restaurantId, i)
    ensures var after := CreateReview(orders, reviews, userId, body, newId).value;
      var stored := UpdateRestaurantRating(restaurants, after, body.restaurantId)[i].ratingAgg;
      && stored == AverageRating(after, body.restaurantId)
      && |ActiveOf(after, body.restaurantId)| == |ActiveOf(reviews, body.restaurantId)| + 1
      && (1.0 <= stored <= 5.0 || !(forall k | 0 <= k < |reviews| :: ValidRating(reviews[k].rating)))
  {
    var after := CreateReview(orders, reviews, userId, body, newId).value;
    var keep := (r: Review) => r.restaurantId == body.restaurantId && !r.isDeleted;
    FilterAppend(reviews, [after[|reviews|]], keep);
    assert after == reviews + [after[|reviews|]];
    if forall k | 0 <= k < |reviews| :: ValidRating(reviews[k].rating) {
      assert forall k | 0 <= k < |after| :: ValidRating(after[k].rating);
      AverageRatingInRange(after, body.restaurantId);
    }
  }

  // ----- the public review list -----

  /** `user.name if user and user.name else "Аноним"`. */
  function UserName(name: Option<string>): (s: string)
    ensures name.Some? && name.value != "" ==> s == name.value
    ensures name.None? || name.value == "" ==> s == "Аноним"
    ensures s != ""
  {
    if name.Some? && name.value != "" then name.value else "Аноним"
  }

  /** The shown name is already a shown name: naming twice changes
      nothing. */
  lemma UserNameIdempotent(name: Option<string>)
    ensures UserName(Some(UserName(name))) == UserName(name)
  {
  }

  datatype OrderedItem = OrderedItem(name: string, qty: int)

  /** `f"{item.name} x{item.qty}"`. */
  function ItemText(item: OrderedItem): string {
    item.name + " x" + IntToString(item.qty)
  }

  /** The order's items as `"name xqty"` texts joined by ", ", or none for
      an order without items. */
  function OrderedItems(items: seq<OrderedItem>): (s: Option<string>)
    ensures s.None? <==> items == []
    ensures s.Some? ==> s.value == Join(seq(|items|, k requires 0 <= k < |items| => ItemText(items[k])), ", ")
  {
    if items == [] then None
    else Some(Join(seq(|items|, k requires 0 <= k < |items| => ItemText(items[k])), ", "))
  }

  /** A single item is written alone, with its quantity after " x". */
  lemma OrderedItemsSingle(name: string, qty: int)
    ensures OrderedItems([OrderedItem(name, qty)]) == Some(name + " x" + IntToString(qty))
  {
    var texts := seq(1, k requires 0 <= k < 1 => ItemText([OrderedItem(name, qty)][k]));
    assert texts == [ItemText(OrderedItem(name, qty))];
  }

  /** `total_reviews` counts the restaurant's active reviews, deleted ones
      and other restaurants' excluded. */
  function TotalReviews(reviews: seq<Review>, restaurantId: int): (n: nat)
    ensures n <= |reviews|
    ensures n == |ActiveOf(reviews, restaurantId)|
  {
    |ActiveOf(reviews, restaurantId)|
  }

  /** Deleting a review never raises the count. */
  lemma DeletedReviewsNotCounted(reviews: seq<Review>, restaurantId: int, i: nat)
    requires i < |reviews|
    ensures TotalReviews(reviews[i := reviews[i].(isDeleted := true)], restaurantId) <= TotalReviews(reviews, restaurantId)
    ensures !reviews[i].isDeleted && reviews[i].restaurantId == restaurantId ==>
      TotalReviews(reviews[i := reviews[i].(isDeleted := true)], restaurantId) == TotalReviews(reviews, restaurantId) - 1
  {
    var keep := (r: Review) => r.restaurantId == restaurantId && !r.isDeleted;
    var after := reviews[i := reviews[i].(isDeleted := true)];
    assert reviews == reviews[..i] + [reviews[i]] + reviews[i + 1..];
    assert after == reviews[..i] + [after[i]] + reviews[i + 1..];
    FilterAppend(reviews[..i] + [reviews[i]], reviews[i + 1..], keep);
    FilterAppend(reviews[..i], [reviews[i]], keep);
    FilterAppend(reviews[..i] + [after[i]], reviews[i + 1..], keep);
    FilterAppend(reviews[..i], [after[i]], keep);
  }

  /** The texts of two item lists written one after the other are the two
      texts joined by ", ". */
  lemma OrderedItemsAppend(a: seq<OrderedItem>, b: seq<OrderedItem>)
    requires a != [] && b != []
    ensures OrderedItems(a + b) == Some(OrderedItems(a).value + ", " + OrderedItems(b).value)
  {
    var f := (items: seq<OrderedItem>) => seq(|items|, k requires 0 <= k < |items| => ItemText(items[k]));
    assert f(a + b) == f(a) + f(b);
    JoinAppend(f(a), f(b), ", ");
  }
}
