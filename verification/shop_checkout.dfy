/** One customer's checkout: replies match requests, failures stop at the failing line, and prices add up.

    Responses are not addressed to a customer, so these statements are about runs with one customer. */
module ShopCheckout {
  import opened ShopSpec
  import opened MessageQueue
  import opened ShopSystem
  import Refine = ShopRefinement

  /** An order, or the response to it, that customer `c` sent for a cart line. */
  predicate Own(o: OrderData, c: nat, line: CartLine) {
    o.customer == c && o.name == line.name && o.quantity == line.quantity
  }

  /** Since the checkout began the shop has accepted the first `k` cart lines, in order. */
  predicate AcceptedPrefix(h: History, lines: seq<CartLine>, k: nat)
    requires k <= |lines|
  {
    && h.start + k <= |h.replies|
    && forall j :: 0 <= j < k ==> Own(h.replies[h.start + j], 0, lines[j]) && h.replies[h.start + j].status == 1
  }

  // ---- The server side, as one customer sees it -----------------------------------------------------

  function Orders(s: System): seq<Msg> { Select(s.queue, MSG_ORDER) }

  function Responses(s: System): seq<Msg> { Select(s.queue, MSG_RESPONSE) }

  /** Queued orders and responses, the shop, and the replies it has sent so far. */
  datatype Desk = Desk(orders: seq<Msg>, responses: seq<Msg>, shop: ShopPc, replies: seq<OrderData>)

  function DeskOf(w: World): Desk {
    Desk(Orders(w.sys), Responses(w.sys), w.sys.shop, w.hist.replies)
  }

  predicate Binary(status: int) { status == 0 || status == 1 }

  /** The shop takes the oldest order. */
  predicate Picks(d: Desk, d': Desk) {
    && d.shop.Polling? && |d.orders| > 0 && d.orders[0].OrderMsg?
    && d' == d.(orders := d.orders[1..], shop := Locking(d.orders[0].order.(status := 0)))
  }

  predicate BeforePricing(pc: ShopPc) {
    pc.Locking? || pc.Scanning? || pc.Comparing? || pc.Reading? || pc.Writing? || pc.Pricing?
  }

  /** The shop works on the order in its hands, changing nothing in it but price and status. */
  predicate Works(d: Desk, d': Desk) {
    && !d.shop.Polling? && !d'.shop.Polling?
    && d' == d.(shop := d'.shop)
    && d'.shop.order.name == d.shop.order.name
    && d'.shop.order.quantity == d.shop.order.quantity
    && d'.shop.order.customer == d.shop.order.customer
    && (Binary(d.shop.order.status) ==> Binary(d'.shop.order.status))
    && (BeforePricing(d'.shop) ==> BeforePricing(d.shop))
  }

  /** The shop answers. */
  predicate Answers(d: Desk, d': Desk) {
    && d.shop.Replying?
    && d' == d.(responses := d.responses + [ResponseMsg(d.shop.order)], shop := Polling,
                replies := d.replies + [d.shop.order])
  }

  predicate Moves(d: Desk, d': Desk) {
    d' == d || Picks(d, d') || Works(d, d') || Answers(d, d')
  }

  lemma ServerOrders(s: System, e: Event)
    requires InRange(s) && Enabled(s, e) && !e.CustomerStep?
    ensures var s' := Next(s, e);
            if e.ShopStep? && s.shop.Polling? && First(s.queue, MSG_ORDER) < |s.queue| then
              Orders(s) == [s.queue[First(s.queue, MSG_ORDER)]] + Orders(s')
            else
              Orders(s') == Orders(s)
  {
    QueueAfter(s, e);
    OrderTraffic(s, e);
    TrafficEffect(s.queue, TrafficOf(s, e), MSG_ORDER);
  }

  lemma ServerResponses(s: System, e: Event)
    requires InRange(s) && Enabled(s, e) && !e.CustomerStep?
    ensures Responses(Next(s, e))
         == Responses(s) + if e.ShopStep? && s.shop.Replying? then [ResponseMsg(s.shop.order)] else []
  {
    QueueAfter(s, e);
    ResponseTraffic(s, e);
    TrafficEffect(s.queue, TrafficOf(s, e), MSG_RESPONSE);
  }

  lemma ShopTakes(s: System)
    requires InRange(s) && s.shop.Polling?
    ensures var i := First(s.queue, MSG_ORDER);
            ShopNext(s).shop == if i < |s.queue| then Locking(s.queue[i].order.(status := 0)) else s.shop
  {
  }

  lemma ShopWorks(s: System)
    requires InRange(s) && Enabled(s, ShopStep) && !s.shop.Polling?
    ensures var s' := ShopNext(s);
            && (s'.shop.Polling? <==> s.shop.Replying?)
            && (!s'.shop.Polling? ==>
                  && s'.shop.order.name == s.shop.order.name
                  && s'.shop.order.quantity == s.shop.order.quantity
                  && s'.shop.order.customer == s.shop.order.customer
                  && (Binary(s.shop.order.status) ==> Binary(s'.shop.order.status))
                  && (BeforePricing(s'.shop) ==> BeforePricing(s.shop)))
  {
  }

  lemma Elsewhere(s: System, e: Event)
    requires InRange(s) && Enabled(s, e)
    ensures !e.CustomerStep? ==> Next(s, e).customers == s.customers
    ensures !e.ShopStep? ==> Next(s, e).shop == s.shop
  {
  }

  lemma HistoryStep(w: World, e: Event)
    requires Can(w, e)
    ensures var h, h' := w.hist, Step(w, e).hist;
            && h'.replies == h.replies + (if e.ShopStep? && w.sys.shop.Replying? then [w.sys.shop.order] else [])
            && (h'.start == if e.CustomerStep? && e.move.BeginCheckout? then |h.replies| else h.start)
  {
  }

  lemma ShopMoves(w: World)
    requires Can(w, ShopStep)
    ensures Moves(DeskOf(w), DeskOf(Step(w, ShopStep)))
  {
    ServerOrders(w.sys, ShopStep);
    ServerResponses(w.sys, ShopStep);
    HistoryStep(w, ShopStep);
    if w.sys.shop.Polling? {
      ShopTakes(w.sys);
      SelectIsNonempty(w.sys.queue, MSG_ORDER);
    } else {
      ShopWorks(w.sys);
    }
  }

  /** Every step of the server processes is one of these moves. */
  lemma ServerMoves(w: World, e: Event)
    requires Can(w, e) && !e.CustomerStep?
    ensures Moves(DeskOf(w), DeskOf(Step(w, e)))
    ensures Step(w, e).sys.customers == w.sys.customers && Step(w, e).hist.start == w.hist.start
  {
    Elsewhere(w.sys, e);
    HistoryStep(w, e);
    if e.ShopStep? {
      ShopMoves(w);
    } else {
      ServerOrders(w.sys, e);
      ServerResponses(w.sys, e);
    }
  }

  // ---- One outstanding request ------------------------------------------------------------------------

  predicate Quiet(d: Desk) {
    d.orders == [] && d.responses == [] && d.shop.Polling?
  }

  /** Where the one outstanding request for `line` is: queued, in the shop's hands, or answered, its answer
      being the reply at position `at`. */
  predicate Outstanding(d: Desk, line: CartLine, at: nat) {
    || (&& |d.orders| == 1 && d.orders[0].OrderMsg? && Own(d.orders[0].order, 0, line)
        && d.responses == [] && d.shop.Polling?
        && |d.replies| == at)
    || (&& d.orders == [] && d.responses == []
        && !d.shop.Polling? && Own(d.shop.order, 0, line) && Binary(d.shop.order.status)
        && |d.replies| == at)
    || (&& d.orders == [] && |d.responses| == 1 && d.shop.Polling?
        && |d.replies| == at + 1
        && d.responses[0] == ResponseMsg(d.replies[at])
        && Own(d.replies[at], 0, line) && Binary(d.replies[at].status))
  }

  lemma OutstandingMoves(d: Desk, d': Desk, line: CartLine, at: nat)
    requires Moves(d, d') && Outstanding(d, line, at)
    ensures Outstanding(d', line, at)
  {
  }

  lemma QuietMoves(d: Desk, d': Desk)
    requires Moves(d, d') && Quiet(d)
    ensures d' == d
  {
  }

  lemma AcceptedStays(h: History, h': History, lines: seq<CartLine>, k: nat)
    requires k <= |lines| && AcceptedPrefix(h, lines, k)
    requires h'.start == h.start && h.replies <= h'.replies
    ensures AcceptedPrefix(h', lines, k)
  {
    forall j | 0 <= j < k
      ensures Own(h'.replies[h'.start + j], 0, lines[j]) && h'.replies[h'.start + j].status == 1
    {
      assert h'.replies[h.start + j] == h.replies[h.start + j];
    }
  }

  /** A reply that matches and accepts the next line extends the accepted prefix. */
  lemma AcceptedGrows(h: History, lines: seq<CartLine>, k: nat)
    requires k < |lines| && AcceptedPrefix(h, lines, k) && |h.replies| == h.start + k + 1
    requires Own(h.replies[h.start + k], 0, lines[k]) && h.replies[h.start + k].status == 1
    ensures AcceptedPrefix(h, lines, k + 1)
  {
  }

  predicate CustomerInv(d: Desk, h: History, n: nat, c: Customer)
    requires CustomerInRange(n, c)
  {
    match c.pc
    case Sending(k) => Quiet(d) && |h.replies| == h.start + k && AcceptedPrefix(h, c.cart.lines, k)
    case Waiting(k) => AcceptedPrefix(h, c.cart.lines, k) && Outstanding(d, c.cart.lines[k], h.start + k)
    case _ => Quiet(d)
  }

  predicate CheckoutInv(w: World)
    requires InRange(w.sys)
  {
    && |w.sys.customers| == 1
    && CustomerInRange(|w.sys.rows|, w.sys.customers[0])
    && CustomerInv(DeskOf(w), w.hist, |w.sys.rows|, w.sys.customers[0])
  }

  lemma DeskKeeps(d: Desk, d': Desk, h: History, h': History, n: nat, n': nat, c: Customer)
    requires CustomerInRange(n, c) && CustomerInRange(n', c) && CustomerInv(d, h, n, c)
    requires Moves(d, d') && d.replies == h.replies && d'.replies == h'.replies && h'.start == h.start
    ensures CustomerInv(d', h', n', c)
  {
    match c.pc
    case Waiting(k) =>
      OutstandingMoves(d, d', c.cart.lines[k], h.start + k);
      AcceptedStays(h, h', c.cart.lines, k);
    case Sending(k) =>
      QuietMoves(d, d');
      AcceptedStays(h, h', c.cart.lines, k);
    case _ =>
      QuietMoves(d, d');
  }

  lemma ServerStep(w: World, e: Event)
    requires Can(w, e) && !e.CustomerStep? && CheckoutInv(w)
    ensures CheckoutInv(Step(w, e))
  {
    ServerMoves(w, e);
    var w' := Step(w, e);
    assert CustomerInRange(|w'.sys.rows|, w'.sys.customers[0]);
    DeskKeeps(DeskOf(w), DeskOf(w'), w.hist, w'.hist, |w.sys.rows|, |w'.sys.rows|, w.sys.customers[0]);
  }

  // ---- The customer's moves ---------------------------------------------------------------------------

  lemma CustomerOrders(s: System, c: nat, move: Move)
    requires InRange(s) && Enabled(s, CustomerStep(c, move))
    ensures Orders(CustomerNext(s, c, move))
         == Orders(s) + if move.SendOrder? then [OrderMsg(OrderFor(s.customers[c], c))] else []
  {
    QueueAfter(s, CustomerStep(c, move));
    OrderTraffic(s, CustomerStep(c, move));
    TrafficEffect(s.queue, TrafficOf(s, CustomerStep(c, move)), MSG_ORDER);
  }

  lemma CustomerResponses(s: System, c: nat, move: Move)
    requires InRange(s) && Enabled(s, CustomerStep(c, move))
    ensures var s' := CustomerNext(s, c, move);
            if move.TakeResponse? then Responses(s) == [s.queue[First(s.queue, MSG_RESPONSE)]] + Responses(s')
            else Responses(s') == Responses(s)
  {
    QueueAfter(s, CustomerStep(c, move));
    ResponseTraffic(s, CustomerStep(c, move));
    TrafficEffect(s.queue, TrafficOf(s, CustomerStep(c, move)), MSG_RESPONSE);
  }

  /** The desk after a move of the one customer. */
  function DeskAfter(d: Desk, c: Customer, move: Move): Desk
    requires move.SendOrder? ==> c.pc.Sending? && c.pc.k < |c.cart.lines|
    requires move.TakeResponse? ==> d.responses != []
  {
    match move
    case SendOrder => d.(orders := d.orders + [OrderMsg(OrderFor(c, 0))])
    case TakeResponse => d.(responses := d.responses[1..])
    case _ => d
  }

  lemma CustomerMoves(w: World, move: Move)
    requires Can(w, CustomerStep(0, move))
    ensures var w' := Step(w, CustomerStep(0, move));
            && CustomerInRange(|w.sys.rows|, w.sys.customers[0])
            && (move.TakeResponse? ==>
                  Responses(w.sys) != [] && w.sys.queue[First(w.sys.queue, MSG_RESPONSE)] == Responses(w.sys)[0])
            && DeskOf(w') == DeskAfter(DeskOf(w), w.sys.customers[0], move)
  {
    assert CustomerInRange(|w.sys.rows|, w.sys.customers[0]);
    CustomerOrders(w.sys, 0, move);
    CustomerResponses(w.sys, 0, move);
    HistoryStep(w, CustomerStep(0, move));
    Elsewhere(w.sys, CustomerStep(0, move));
  }

  lemma SendKeeps(d: Desk, h: History, n: nat, c: Customer)
    requires CustomerInRange(n, c) && CustomerInv(d, h, n, c) && c.pc.Sending? && d.replies == h.replies
    ensures CustomerInv(DeskAfter(d, c, SendOrder), h, n, c.(pc := Waiting(c.pc.k)))
  {
  }

  lemma TakeKeeps(d: Desk, h: History, n: nat, c: Customer)
    requires CustomerInRange(n, c) && CustomerInv(d, h, n, c) && c.pc.Waiting? && d.replies == h.replies
    requires d.responses != []
    ensures d.responses[0].ResponseMsg?
    ensures var c' := Settle(c, d.responses[0].order.status);
            CustomerInRange(n, c') && CustomerInv(DeskAfter(d, c, TakeResponse), h, n, c')
  {
    if d.responses[0].order.status == 1 {
      AcceptedGrows(h, c.cart.lines, c.pc.k);
    }
  }

  lemma TakesResponse(w: World)
    requires Can(w, CustomerStep(0, TakeResponse)) && CheckoutInv(w)
    ensures CheckoutInv(Step(w, CustomerStep(0, TakeResponse)))
  {
    CustomerMoves(w, TakeResponse);
    HistoryStep(w, CustomerStep(0, TakeResponse));
    TakeKeeps(DeskOf(w), w.hist, |w.sys.rows|, w.sys.customers[0]);
  }

  lemma OtherMoves(s: System, c: Customer, move: Move)
    requires CustomerInRange(|s.rows|, c) && MoveEnabled(s, c, 0, move) && !move.SendOrder? && !move.TakeResponse?
    ensures !c.pc.Sending? && !c.pc.Waiting? && !Moved(s, c, 0, move).pc.Waiting?
    ensures Moved(s, c, 0, move).pc.Sending? ==> move.BeginCheckout? && Moved(s, c, 0, move).pc.k == 0
  {
  }

  lemma CustomerKeeps(w: World, move: Move)
    requires Can(w, CustomerStep(0, move)) && CheckoutInv(w)
    ensures CheckoutInv(Step(w, CustomerStep(0, move)))
  {
    var c := w.sys.customers[0];
    if move.TakeResponse? {
      TakesResponse(w);
    } else {
      CustomerMoves(w, move);
      HistoryStep(w, CustomerStep(0, move));
      if move.SendOrder? {
        SendKeeps(DeskOf(w), w.hist, |w.sys.rows|, c);
      } else {
        OtherMoves(w.sys, c, move);
      }
    }
  }

  lemma CheckoutStep(w: World, e: Event)
    requires Can(w, e) && CheckoutInv(w)
    ensures CheckoutInv(Step(w, e))
  {
    if e.CustomerStep? {
      CustomerKeeps(w, e.move);
    } else {
      ServerStep(w, e);
    }
  }

  lemma {:induction false} CheckoutRun(w: World, es: seq<Event>)
    requires InRange(w.sys) && CheckoutInv(w) && Allowed(w, es)
    ensures InRange(Execute(w, es).sys) && CheckoutInv(Execute(w, es))
    decreases |es|
  {
    if es != [] {
      CheckoutStep(w, es[0]);
      CheckoutRun(Step(w, es[0]), es[1..]);
    }
  }

  /** The customer `c` takes response `r`, after history `h`, and becomes `c'`: the response is to its own
      order for the line just sent; the shop's replies since the checkout began are that response preceded
      by acceptances of exactly the earlier lines, in order; a rejection ends the checkout with the cart
      unchanged; and the acceptance of the last line empties the cart. */
  predicate Answered(h: History, c: Customer, c': Customer, r: OrderData) {
    && c.pc.Waiting? && c.pc.k < |c.cart.lines|
    && var k := c.pc.k;
    && Own(r, 0, c.cart.lines[k]) && Binary(r.status)
    && AcceptedPrefix(h, c.cart.lines, k)
    && h.replies[h.start..] == h.replies[h.start..h.start + k] + [r]
    && (r.status == 0 ==> c' == Customer(c.cart, Browsing))
    && (r.status == 1 && k + 1 < |c.cart.lines| ==> c' == Customer(c.cart, Sending(k + 1)))
    && (r.status == 1 && k + 1 == |c.cart.lines| ==> c' == Customer(EMPTY_CART, Browsing))
  }

  lemma AnsweredBy(d: Desk, h: History, n: nat, c: Customer)
    requires CustomerInRange(n, c) && CustomerInv(d, h, n, c) && c.pc.Waiting? && d.replies == h.replies
    requires d.responses != []
    ensures d.responses[0].ResponseMsg?
    ensures Answered(h, c, Settle(c, d.responses[0].order.status), d.responses[0].order)
  {
    var at := h.start + c.pc.k;
    assert h.replies[h.start..] == h.replies[h.start..at] + [h.replies[at]];
  }

  lemma PrefixAt(v: World)
    requires Can(v, CustomerStep(0, TakeResponse)) && CheckoutInv(v)
    ensures var v' := Step(v, CustomerStep(0, TakeResponse));
            && v.sys.queue[First(v.sys.queue, MSG_RESPONSE)].ResponseMsg?
            && Answered(v.hist, v.sys.customers[0], v'.sys.customers[0],
                        v.sys.queue[First(v.sys.queue, MSG_RESPONSE)].order)
  {
    CustomerMoves(v, TakeResponse);
    AnsweredBy(DeskOf(v), v.hist, |v.sys.rows|, v.sys.customers[0]);
  }

  /** Checkout prefix: every response the one customer takes, in any run, is taken that way. */
  lemma CheckoutPrefix(w: World, es: seq<Event>)
    requires Init(w) && |w.sys.customers| == 1 && Allowed(w, es)
    requires Can(Execute(w, es), CustomerStep(0, TakeResponse))
    ensures var v := Execute(w, es);
            var v' := Step(v, CustomerStep(0, TakeResponse));
            Answered(v.hist, v.sys.customers[0], v'.sys.customers[0],
                     v.sys.queue[First(v.sys.queue, MSG_RESPONSE)].order)
  {
    CheckoutRun(w, es);
    PrefixAt(Execute(w, es));
  }
}
