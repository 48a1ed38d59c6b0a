/** Runs that show where natural expectations of the shop fail, and from which starts exactly they can. */
module ShopScenarios {
  import opened ShopSpec
  import opened MessageQueue
  import opened ShopSystem
  import opened ShopRuns
  import Delivery = ShopDelivery
  import Prices = ShopPrices
  import Progress = ShopProgress

  // ---- A total that is not the sum of its lines ---------------------------------------------------------

  function Start(rows: seq<Item>, qbytes: nat, customers: nat): World {
    World(
      System(rows, 1, [], qbytes, Polling, AtMenu, PollLow, seq(customers, _ => Customer(EMPTY_CART, Browsing))),
      History([], [], [], [], [], 0))
  }

  /** A price stored between the two reads of add_to_cart: the line keeps the old price, the total
      takes the new one. */
  lemma TornTotal() returns (w: World, es: seq<Event>)
    ensures Init(w) && Allowed(w, es)
    ensures var c := Execute(w, es).sys.customers;
            |c| == 1 && c[0].cart == Cart([CartLine("a", 2, 1.0)], 4.0)
            && c[0].cart.total != Prices.SumCosts(c[0].cart.lines)
  {
    var line := CartLine("a", 2, 1.0);
    w := Start([Item("a", 5, 1.0, 0)], 16384, 1);
    var s: System;
    es, s := HalfAdd(w, [], w.sys, 0, 2);
    es, s := Reprice(w, es, s, 2.0);
    assert s.customers == [Customer(EMPTY_CART, AddTotal(line, 0))];
    es, s := Go(w, es, s, CustomerStep(0, AddStep));
    Prices.SumCostsSnoc([], line);
    assert [] + [line] == [line];
  }

  // ---- A queue that fills up for good -------------------------------------------------------------------

  /** The customers from `from` on each buy one unit of the first item. */
  lemma {:induction false} FillQueue(w: World, es: seq<Event>, s: System, from: nat, count: nat)
    returns (es': seq<Event>, s': System)
    requires Reaches(w, es, s) && InRange(s)
    requires |s.rows| > 0 && s.rows[0].quantity > 0 && from + count <= |s.customers|
    requires Bytes(s.queue) + ORDER_SIZE * count <= s.qbytes
    requires forall c :: from <= c < |s.customers| ==> s.customers[c] == Customer(EMPTY_CART, Browsing)
    ensures Reaches(w, es', s') && InRange(s')
    ensures s'.shop == s.shop && s'.qbytes == s.qbytes
    ensures Progress.OrderCount(s') == Progress.OrderCount(s) + count
    decreases count
  {
    if count == 0 {
      es', s' := es, s;
    } else {
      es', s' := AddAndSend(w, es, s, from, 1);
      SendEffect(s.queue, OrderMsg(FirstOrder(s.rows[0], 1, from)));
      es', s' := FillQueue(w, es', s', from + 1, count - 1);
    }
  }

  /** The first customer's order is in the shop's hands and nothing is queued. */
  lemma FirstInHand(w: World) returns (es: seq<Event>, s: System)
    requires Init(w) && |w.sys.rows| > 0 && |w.sys.customers| > 0 && w.sys.qbytes >= ORDER_SIZE
    ensures Reaches(w, es, s) && InRange(s)
    ensures Progress.Busy(s) && s.queue == [] && s.qbytes == w.sys.qbytes
    ensures |s.rows| > 0 && s.rows[0].quantity > 0
    ensures |s.customers| == |w.sys.customers|
    ensures forall c :: 1 <= c < |s.customers| ==> s.customers[c] == Customer(EMPTY_CART, Browsing)
  {
    es, s := Restock(w, [], w.sys, 1);
    es, s := AddAndSend(w, es, s, 0, 1);
    assert s.queue == [OrderMsg(FirstOrder(s.rows[0], 1, 0))];
    assert First(s.queue, MSG_ORDER) == 0;
    es, s := Go(w, es, s, ShopStep);
  }

  /** Room for an order but not for one per customer: the shop takes the first customer's order, the others'
      orders fill the queue, and the shop's response has nowhere to go for ever after. */
  lemma FullQueue(w: World) returns (es: seq<Event>)
    requires Init(w) && w.sys.rows != []
    requires ORDER_SIZE <= w.sys.qbytes < ORDER_SIZE * |w.sys.customers|
    ensures Allowed(w, es) && Progress.Doomed(Execute(w, es).sys)
    ensures forall fs :: Allowed(Execute(w, es), fs) ==>
              Progress.CountWaiting(Execute(Execute(w, es), fs).sys.customers) > 0
  {
    var s: System;
    es, s := FirstInHand(w);
    es, s := FillQueue(w, es, s, 1, w.sys.qbytes / ORDER_SIZE);
    Progress.NoStuckCustomer(w, es);
  }

  ghost predicate CanLockUp(w: World) {
    exists es :: Allowed(w, es) && Progress.Doomed(Execute(w, es).sys)
  }

  /** Exactly which starts can lock up: those with something to buy and room for an order, but not for one
      per customer. */
  lemma RoomCondition(w: World)
    requires Init(w)
    ensures CanLockUp(w) <==> w.sys.rows != [] && ORDER_SIZE <= w.sys.qbytes < ORDER_SIZE * |w.sys.customers|
  {
    if w.sys.rows != [] && ORDER_SIZE <= w.sys.qbytes < ORDER_SIZE * |w.sys.customers| {
      var es := FullQueue(w);
    } else {
      forall es | Allowed(w, es) ensures !Progress.Doomed(Execute(w, es).sys) {
        Progress.EnoughRoom(w, es);
      }
    }
  }

  // ---- A response in the wrong hands -----------------------------------------------------------------------

  /** Two orders, for one unit and for two; the shop answers the first while both customers wait. */
  lemma TwoWait(w: World) returns (es: seq<Event>, s: System, r: OrderData)
    requires Init(w) && w.sys.rows != [] && |w.sys.customers| >= 2 && w.sys.qbytes >= 2 * ORDER_SIZE
    ensures Reaches(w, es, s) && InRange(s)
    ensures |s.queue| == 2 && s.queue[0].OrderMsg? && s.queue[1] == ResponseMsg(r)
    ensures r.customer == 0 && r.quantity == 1
    ensures |s.customers| == |w.sys.customers|
    ensures s.customers[1].pc == Waiting(0) && |s.customers[1].cart.lines| == 1
    ensures s.customers[1].cart.lines[0].quantity == 2
  {
    var low := w.sys.rows[0].lowThreshold;
    es, s := Restock(w, [], w.sys, 4 + if low > 0 then low else 0);
    var item := s.rows[0];
    var o, p := FirstOrder(item, 1, 0), FirstOrder(item, 2, 1);
    es, s := AddAndSend(w, es, s, 0, 1);
    assert s.queue == [OrderMsg(o)];
    SendEffect([], OrderMsg(o));
    assert [] + [OrderMsg(o)] == [OrderMsg(o)];
    es, s := AddAndSend(w, es, s, 1, 2);
    assert s.queue == [OrderMsg(o), OrderMsg(p)];
    es, s := TakeOrder(w, es, s, o);
    assert s.queue == [OrderMsg(p)];
    SendEffect([], OrderMsg(p));
    assert [] + [OrderMsg(p)] == [OrderMsg(p)];
    r := s.shop.order.(status := 1, price := Cost(1, item.price));
    es, s := Answer(w, es, s);
  }

  /** Two customers, something to buy, and room for a response beside an order: the second customer can take
      the response to the first one's order, which is for another quantity than its own. */
  lemma Misdelivered(w: World) returns (es: seq<Event>)
    requires Init(w) && w.sys.rows != [] && |w.sys.customers| >= 2 && w.sys.qbytes >= 2 * ORDER_SIZE
    ensures Allowed(w, es)
    ensures var s := Execute(w, es).sys;
            && InRange(s) && Enabled(s, CustomerStep(1, TakeResponse))
            && !Delivery.TakesOwn(s, CustomerStep(1, TakeResponse))
            && s.queue[First(s.queue, MSG_RESPONSE)].order.customer == 0
            && s.queue[First(s.queue, MSG_RESPONSE)].order.quantity
               != s.customers[1].cart.lines[s.customers[1].pc.k].quantity
  {
    var s: System;
    var r: OrderData;
    es, s, r := TwoWait(w);
    assert First(s.queue, MSG_RESPONSE) == 1;
  }

  ghost predicate CanMisdeliver(w: World) {
    exists es :: Allowed(w, es) && !Delivery.AllOwn(w, es)
  }

  /** Exactly from which starts some run hands a response to the wrong customer: those with two customers,
      something to buy, and room for a response beside an order. */
  lemma DeliveryCondition(w: World)
    requires Init(w)
    ensures CanMisdeliver(w)
            <==> |w.sys.customers| >= 2 && w.sys.rows != [] && w.sys.qbytes >= 2 * ORDER_SIZE
  {
    if Delivery.Safe(w) {
      forall es | Allowed(w, es) ensures Delivery.AllOwn(w, es) {
        Delivery.SafeStart(w, es);
      }
    } else {
      var es := Misdelivered(w);
      var e := CustomerStep(1, TakeResponse);
      Delivery.LastIsOwn(w, es, e);
      assert Allowed(w, es + [e]) && !Delivery.AllOwn(w, es + [e]);
    }
  }
}
