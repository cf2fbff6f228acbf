/** The per-order rule of the delivery watchdog: an accepted order whose
    estimated time, never counted below five minutes, has passed since
    acceptance is marked delivered. `now` is time-zone aware (Moscow
    time); a stored acceptance time may come back aware or naive, and
    Python refuses to order an aware time against a naive one. Times are
    whole seconds on the Moscow clock; the 10-second polling loop around
    one pass is not modelled. */
module DeliveryWatchdog {
  import opened Wrappers

  /** A datetime: seconds on the Moscow clock, and whether it carries a
      time zone. */
  datatype Stamp = Stamp(seconds: int, aware: bool)

  datatype Order = Order(id: int, status: string, acceptedAt: Option<Stamp>, etaMinutes: Option<int>)

  /** `max(eta_minutes, 5)`: the delay is never below five minutes. */
  function EffectiveDelay(etaMinutes: int): (m: int)
    ensures m >= 5 && m >= etaMinutes
    ensures m == etaMinutes || m == 5
  {
    if etaMinutes > 5 then etaMinutes else 5
  }

  /** An order the pass compares against `now`: accepted, with an
      acceptance time and a non-zero estimate. */
  predicate Candidate(o: Order) {
    && o.status == "accepted"
    && o.acceptedAt.Some?
    && o.etaMinutes.Some? && o.etaMinutes.value != 0
  }

  /** The watchdog's test for one order: a candidate whose delay is
      reached. */
  predicate Due(o: Order, now: int) {
    && Candidate(o)
    && now >= o.acceptedAt.value.seconds + EffectiveDelay(o.etaMinutes.value) * 60
  }

  /** One order after the pass, its acceptance time read on the Moscow
      clock whether or not it carries a time zone. */
  function Tick(o: Order, now: int): (r: Order)
    ensures Due(o, now) ==> r == o.(status := "delivered")
    ensures !Due(o, now) ==> r == o
  {
    if o.status == "accepted" && o.acceptedAt.Some? && o.etaMinutes.Some? && o.etaMinutes.value != 0 then
      var delay := EffectiveDelay(o.etaMinutes.value);
      if now >= o.acceptedAt.value.seconds + delay * 60 then o.(status := "delivered") else o
    else o
  }

  datatype Pass = Pass(orders: seq<Order>, committed: bool)

  /** One pass over the orders with every acceptance time read on the
      Moscow clock: every due order becomes delivered, nothing else
      changes, and the session commits only when some order changed. */
  method WatchdogPass(orders: seq<Order>, now: int) returns (p: Pass)
    ensures |p.orders| == |orders|
    ensures forall k | 0 <= k < |orders| :: p.orders[k] == Tick(orders[k], now)
    ensures p.committed <==> exists k :: 0 <= k < |orders| && Due(orders[k], now)
  {
    var out: seq<Order> := [];
    var changed := false;
    var i := 0;
    while i < |orders|
      invariant i <= |orders| && |out| == i
      invariant forall k | 0 <= k < i :: out[k] == Tick(orders[k], now)
      invariant changed <==> exists k :: 0 <= k < i && Due(orders[k], now)
    {
      out := out + [Tick(orders[i], now)];
      if Due(orders[i], now) {
        changed := true;
      }
      i := i + 1;
    }
    p := Pass(out, changed);
  }

  /** The pass as written: the first candidate whose acceptance time is
      naive makes the comparison raise a TypeError, the `except` swallows
      it, and the session is left without a commit. Otherwise the pass
      is the one above. */
  function PassAsWritten(orders: seq<Order>, now: int): (r: Response<Pass>)
    ensures r.Raised? <==> exists k :: 0 <= k < |orders| && Candidate(orders[k]) && !orders[k].acceptedAt.value.aware
    ensures r.Raised? ==> r.name == "TypeError"
    ensures !r.Raised? ==> r.Ok?
    ensures r.Ok? ==> |r.value.orders| == |orders|
    ensures r.Ok? ==> forall k | 0 <= k < |orders| :: r.value.orders[k] == Tick(orders[k], now)
    ensures r.Ok? ==> (r.value.committed <==> exists k :: 0 <= k < |orders| && Due(orders[k], now))
  {
    if |orders| == 0 then Ok(Pass([], false))
    else if Candidate(orders[0]) && !orders[0].acceptedAt.value.aware then Raised("TypeError")
    else
      var rest := PassAsWritten(orders[1..], now);
      assert forall k | 1 <= k < |orders| :: orders[k] == orders[1..][k - 1];
      if rest.Raised? then rest
      else Ok(Pass([Tick(orders[0], now)] + rest.value.orders, Due(orders[0], now) || rest.value.committed))
  }

  /** What the database holds after a pass as written: a raising pass
      stores nothing. */
  function StoredAfter(orders: seq<Order>, now: int): (r: seq<Order>)
    ensures PassAsWritten(orders, now).Raised? ==> r == orders
    ensures PassAsWritten(orders, now).Ok? ==> r == PassAsWritten(orders, now).value.orders
  {
    match PassAsWritten(orders, now)
    case Ok(p) => p.orders
    case _ => orders
  }

  /** One order accepted an hour ago with a 30-minute estimate, its
      acceptance time stored naive: it is due, yet the pass raises and
      it stays accepted. */
  lemma NaiveStampBlocksDelivery()
    ensures var o := Order(1, "accepted", Some(Stamp(0, false)), Some(30));
      && Due(o, 3600)
      && PassAsWritten([o], 3600) == Raised("TypeError")
      && StoredAfter([o], 3600) == [o]
  {
    var o := Order(1, "accepted", Some(Stamp(0, false)), Some(30));
    assert Candidate([o][0]) && ![o][0].acceptedAt.value.aware;
  }

  /** With a naive candidate in the table, every later pass raises too:
      the stored orders never change again, so no order is ever
      delivered. */
  lemma {:induction false} NaiveStampStallsForever(orders: seq<Order>, nows: seq<int>)
    requires exists k :: 0 <= k < |orders| && Candidate(orders[k]) && !orders[k].acceptedAt.value.aware
    ensures Replay(orders, nows) == orders
    decreases |nows|
  {
    if |nows| > 0 {
      assert StoredAfter(orders, nows[0]) == orders;
      NaiveStampStallsForever(orders, nows[1..]);
    }
  }

  /** The table after a run of passes at the given times. */
  function Replay(orders: seq<Order>, nows: seq<int>): seq<Order>
    decreases |nows|
  {
    if |nows| == 0 then orders else Replay(StoredAfter(orders, nows[0]), nows[1..])
  }

  /** When every stored acceptance time is aware, the pass as written is
      the corrected one. */
  lemma AwareStampsPassAsIntended(orders: seq<Order>, now: int)
    requires forall k | 0 <= k < |orders| && orders[k].acceptedAt.Some? :: orders[k].acceptedAt.value.aware
    ensures PassAsWritten(orders, now).Ok?
    ensures StoredAfter(orders, now) == seq(|orders|, k requires 0 <= k < |orders| => Tick(orders[k], now))
  {
  }

  /** Only accepted orders change, and only to delivered. */
  lemma OnlyAcceptedChange(o: Order, now: int)
    ensures Tick(o, now) != o ==> o.status == "accepted" && Tick(o, now).status == "delivered"
    ensures o.acceptedAt.None? || o.etaMinutes.None? || o.etaMinutes.value == 0 ==> Tick(o, now) == o
  {
  }

  /** An order is delivered by the pass exactly when at least five minutes,
      and at least its estimate, have passed since acceptance. */
  lemma DeliveredIffDelayPassed(o: Order, now: int)
    requires o.status == "accepted" && o.acceptedAt.Some? && o.etaMinutes.Some? && o.etaMinutes.value != 0
    ensures Tick(o, now).status == "delivered" <==>
      now - o.acceptedAt.value.seconds >= 5 * 60 && now - o.acceptedAt.value.seconds >= o.etaMinutes.value * 60
  {
  }

  /** Never within five minutes of acceptance. */
  lemma NeverBeforeFiveMinutes(o: Order, now: int)
    requires o.acceptedAt.Some? && now < o.acceptedAt.value.seconds + 5 * 60
    ensures Tick(o, now) == o
  {
  }

  /** A second pass at the same time changes nothing and commits
      nothing. */
  lemma TickIdempotent(o: Order, now: int)
    ensures Tick(Tick(o, now), now) == Tick(o, now)
    ensures !Due(Tick(o, now), now)
  {
  }

  /** Later passes deliver no fewer orders: once due, an order stays due
      until it is delivered. */
  lemma DueStaysDue(o: Order, now: int, later: int)
    requires Due(o, now) && later >= now
    ensures Due(o, later)
  {
  }
}
