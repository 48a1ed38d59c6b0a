/** When the total a customer is shown is what the shop charges. */
module ShopPrices {
  import opened ShopSpec
  import opened MessageQueue
  import opened ShopSystem
  import opened ShopCheckout
  import Refine = ShopRefinement

  function LineCost(line: CartLine): real {
    line.unitPrice * line.quantity as real
  }

  /** Quantity times unit price, over all lines. */
  function SumCosts(lines: seq<CartLine>): real {
    if lines == [] then 0.0
    else
      var last := lines[|lines| - 1];
      SumCosts(lines[..|lines| - 1]) + last.unitPrice * last.quantity as real
  }

  function SumPrices(replies: seq<OrderData>): real {
    if replies == [] then 0.0 else SumPrices(replies[..|replies| - 1]) + replies[|replies| - 1].price
  }

  lemma SumCostsSnoc(lines: seq<CartLine>, line: CartLine)
    ensures SumCosts(lines + [line]) == SumCosts(lines) + LineCost(line)
  {
    assert (lines + [line])[..|lines|] == lines;
  }

  /** Replies priced line by line sum to the cost of the lines. */
  lemma {:induction false} SumsAgree(replies: seq<OrderData>, lines: seq<CartLine>)
    requires |replies| == |lines|
    requires forall j :: 0 <= j < |lines| ==> replies[j].price == LineCost(lines[j])
    ensures SumPrices(replies) == SumCosts(lines)
  {
    if lines != [] {
      SumsAgree(replies[..|lines| - 1], lines[..|lines| - 1]);
    }
  }

  // ---- The cart names rows that exist ---------------------------------------------------------------

  predicate CartInv(rows: seq<Item>, c: Customer) {
    && (forall j :: 0 <= j < |c.cart.lines| ==> Lookup(rows, c.cart.lines[j].name) < |rows|)
    && |c.cart.lines| <= MAX_CART_ITEMS
    && (c.cart.lines == [] ==> c.cart.total == 0.0)
    && match c.pc
       case AddScan(name, _, i) => i <= Lookup(rows, name) && |c.cart.lines| < MAX_CART_ITEMS
       case AddCheck(name, _, i) => i == Lookup(rows, name) < |rows| && |c.cart.lines| < MAX_CART_ITEMS
       case AddUnit(name, _, i) => i == Lookup(rows, name) < |rows| && |c.cart.lines| < MAX_CART_ITEMS
       case AddTotal(line, i) => i == Lookup(rows, line.name) < |rows| && |c.cart.lines| < MAX_CART_ITEMS
       case _ => true
  }

  /** Names never change, and a price changes only by the store in update_price. */
  lemma RowsFrame(s: System, e: Event)
    requires InRange(s) && Enabled(s, e)
    ensures var s' := Next(s, e);
            && SameNames(s.rows, s'.rows)
            && forall i :: 0 <= i < |s.rows| ==>
                 s'.rows[i].price
                 == if e.MgrStep? && s.mgr.Matched? && s.mgr.op.PriceOp? && s.mgr.i == i then s.mgr.op.price
                    else s.rows[i].price
  {
  }

  lemma CartFrame(rows: seq<Item>, rows': seq<Item>, c: Customer)
    requires SameNames(rows, rows')
    ensures CartInv(rows, c) ==> CartInv(rows', c)
  {
    forall name: string ensures Lookup(rows, name) == Lookup(rows', name) {
      LookupDependsOnNames(rows, rows', name);
    }
  }

  lemma CartMove(s: System, c: Customer, pid: nat, move: Move)
    requires CustomerInRange(|s.rows|, c) && MoveEnabled(s, c, pid, move) && CartInv(s.rows, c)
    ensures CartInv(s.rows, Moved(s, c, pid, move))
  {
  }

  // ---- Prices in agreement ----------------------------------------------------------------------------

  /** Number of lines whose response has been taken. */
  function Settled(c: Customer): nat {
    match c.pc
    case Sending(k) => k
    case Waiting(k) => k
    case _ => 0
  }

  /** The shop's row for a cart line carries the price the customer read. */
  predicate PriceStands(rows: seq<Item>, line: CartLine) {
    var i := Lookup(rows, line.name);
    i < |rows| && rows[i].price == line.unitPrice
  }

  predicate CartStands(rows: seq<Item>, cart: Cart) {
    forall j :: 0 <= j < |cart.lines| ==> PriceStands(rows, cart.lines[j])
  }

  /** The rows still carry the prices the customer read, for a line half added and for lines `from` on. */
  predicate Standing(rows: seq<Item>, c: Customer, from: nat) {
    && (c.pc.AddTotal? ==> PriceStands(rows, c.pc.line))
    && (forall j :: from <= j < |c.cart.lines| ==> PriceStands(rows, c.cart.lines[j]))
  }

  /** Answered lines, and the one being answered if accepted, were charged what the cart says. */
  predicate Charged(d: Desk, start: nat, c: Customer) {
    && (forall j :: 0 <= j < Settled(c) && j < |c.cart.lines| && start + j < |d.replies| ==>
          d.replies[start + j].price == LineCost(c.cart.lines[j]))
    && (c.pc.Waiting? && c.pc.k < |c.cart.lines| ==>
          && (!d.shop.Polling? && d.shop.order.status == 1 ==> d.shop.order.price == LineCost(c.cart.lines[c.pc.k]))
          && (start + c.pc.k < |d.replies| && d.replies[start + c.pc.k].status == 1 ==>
                d.replies[start + c.pc.k].price == LineCost(c.cart.lines[c.pc.k])))
  }

  /** The first cart line whose order the shop has not priced in the checkout going on. */
  function Unpriced(d: Desk, c: Customer): nat {
    match c.pc
    case Sending(k) => k
    case Waiting(k) => if d.orders != [] || BeforePricing(d.shop) then k else k + 1
    case _ => 0
  }

  /** Unpriced lines agree with the shop's rows, priced ones were charged what the cart says, and the total
      is the sum of the lines. */
  predicate PriceInv(rows: seq<Item>, d: Desk, start: nat, c: Customer) {
    && c.cart.total == SumCosts(c.cart.lines)
    && Standing(rows, c, Unpriced(d, c))
    && Charged(d, start, c)
  }

  predicate Agreed(w: World)
    requires w.sys.customers != []
  {
    PriceInv(w.sys.rows, DeskOf(w), w.hist.start, w.sys.customers[0])
  }

  predicate Inv(loaded: seq<Item>, w: World) {
    && Refine.RefinementInv(loaded, w)
    && CheckoutInv(w)
    && CartInv(w.sys.rows, w.sys.customers[0])
  }

  // ---- Price stores that matter ---------------------------------------------------------------------------

  /** The store in update_price. */
  predicate StoresPrice(s: System, e: Event) {
    e.MgrStep? && s.mgr.Matched? && s.mgr.op.PriceOp?
  }

  /** Row `i` is that of a line half added or of a line the shop has not priced yet. */
  predicate PricePending(rows: seq<Item>, d: Desk, c: Customer, i: nat) {
    || (c.pc.AddTotal? && c.pc.i == i)
    || exists j :: Unpriced(d, c) <= j < |c.cart.lines| && Lookup(rows, c.cart.lines[j].name) == i
  }

  predicate InCart(rows: seq<Item>, cart: Cart, i: nat) {
    exists j :: 0 <= j < |cart.lines| && Lookup(rows, cart.lines[j].name) == i
  }

  predicate InCheckout(c: Customer) {
    c.pc.Sending? || c.pc.Waiting?
  }

  /** The checkout going on is rejected in the course of the run, which leaves its lines in the cart. */
  predicate Rejected(w: World, es: seq<Event>)
    requires Allowed(w, es)
    decreases |es|
  {
    && es != [] && w.sys.customers != [] && InCheckout(w.sys.customers[0])
    && var w' := Step(w, es[0]);
    && w'.sys.customers != []
    && if InCheckout(w'.sys.customers[0]) then Rejected(w', es[1..]) else w'.sys.customers[0].cart.lines != []
  }

  /** Row `i` is that of a cart line whose price is still to be read, in this checkout or, if this one is
      going to be rejected, in a later one. */
  predicate StillToPrice(w: World, es: seq<Event>, i: nat)
    requires Allowed(w, es) && w.sys.customers != []
  {
    || PricePending(w.sys.rows, DeskOf(w), w.sys.customers[0], i)
    || (Rejected(w, es) && InCart(w.sys.rows, w.sys.customers[0].cart, i))
  }

  /** No step of the run stores a price in the row of a cart line still to be priced. */
  predicate Undisturbed(w: World, es: seq<Event>)
    requires Allowed(w, es)
    decreases |es|
  {
    es == []
    || (&& w.sys.customers != []
        && (StoresPrice(w.sys, es[0]) ==> !StillToPrice(w, es, w.sys.mgr.i))
        && Undisturbed(Step(w, es[0]), es[1..]))
  }

  // ---- Steps of the server processes --------------------------------------------------------------------

  /** Prices of the rows the lines name are all that matters. */
  lemma StandingFrame(rows: seq<Item>, rows': seq<Item>, c: Customer, from: nat)
    requires SameNames(rows, rows') && Standing(rows, c, from)
    requires c.pc.AddTotal? ==> var i := Lookup(rows, c.pc.line.name); rows'[i].price == rows[i].price
    requires forall j :: from <= j < |c.cart.lines| ==>
               var i := Lookup(rows, c.cart.lines[j].name); rows'[i].price == rows[i].price
    ensures Standing(rows', c, from)
  {
    forall name: string ensures Lookup(rows, name) == Lookup(rows', name) {
      LookupDependsOnNames(rows, rows', name);
    }
  }

  lemma ServerStanding(w: World, e: Event)
    requires Can(w, e) && !e.CustomerStep? && CheckoutInv(w) && CartInv(w.sys.rows, w.sys.customers[0])
    requires StoresPrice(w.sys, e) ==> !PricePending(w.sys.rows, DeskOf(w), w.sys.customers[0], w.sys.mgr.i)
    requires Standing(w.sys.rows, w.sys.customers[0], Unpriced(DeskOf(w), w.sys.customers[0]))
    ensures Standing(Step(w, e).sys.rows, w.sys.customers[0], Unpriced(DeskOf(w), w.sys.customers[0]))
  {
    RowsFrame(w.sys, e);
    StandingFrame(w.sys.rows, Step(w, e).sys.rows, w.sys.customers[0], Unpriced(DeskOf(w), w.sys.customers[0]));
  }

  lemma UnpricedAdvances(d: Desk, d': Desk, c: Customer)
    requires Moves(d, d')
    ensures Unpriced(d, c) <= Unpriced(d', c)
  {
  }

  /** The shop prices a line from the row the customer read the price from. */
  lemma ShopPricesLine(base: seq<Item>, s: System, op: Op, line: CartLine)
    requires InRange(s) && s.shop.Pricing? && Refine.ShopProgress(base, s, op)
    requires PriceStands(s.rows, line) && Own(s.shop.order, 0, line)
    ensures ShopNext(s).shop.Alerting? && ShopNext(s).shop.order.price == LineCost(line)
  {
    LookupDependsOnNames(base, s.rows, s.shop.order.name);
  }

  /** Elsewhere the shop leaves the order in its hands alone. */
  lemma ShopKeepsOrder(s: System)
    requires InRange(s) && Enabled(s, ShopStep) && !s.shop.Polling? && !s.shop.Pricing?
    ensures !ShopNext(s).shop.Polling? ==> ShopNext(s).shop.order == s.shop.order
  {
  }

  /** The order in the shop's hands after a step: untouched, or priced as the line says. */
  predicate FairlyPriced(d: Desk, d': Desk, c: Customer) {
    c.pc.Waiting? && c.pc.k < |c.cart.lines| && !d.shop.Polling? && !d'.shop.Polling? ==>
      d'.shop.order == d.shop.order || d'.shop.order.price == LineCost(c.cart.lines[c.pc.k])
  }

  /** Charges carry over when the shop's order is picked up, kept, priced as the line says, or answered. */
  lemma ChargedMoves(d: Desk, d': Desk, h: History, n: nat, c: Customer)
    requires CustomerInRange(n, c) && CustomerInv(d, h, n, c) && d.replies == h.replies
    requires Moves(d, d') && FairlyPriced(d, d', c) && Charged(d, h.start, c)
    ensures Charged(d', h.start, c)
  {
    if c.pc.Waiting? {
      ChargedWaiting(d, d', h.start, c);
    } else {
      QuietMoves(d, d');
    }
  }

  lemma ChargedWaiting(d: Desk, d': Desk, start: nat, c: Customer)
    requires c.pc.Waiting? && c.pc.k < |c.cart.lines| && Outstanding(d, c.cart.lines[c.pc.k], start + c.pc.k)
    requires Moves(d, d') && FairlyPriced(d, d', c) && Charged(d, start, c)
    ensures Charged(d', start, c)
  {
  }

  lemma ServerFair(loaded: seq<Item>, w: World, e: Event)
    requires Can(w, e) && !e.CustomerStep? && Inv(loaded, w) && Agreed(w)
    ensures FairlyPriced(DeskOf(w), DeskOf(Step(w, e)), w.sys.customers[0])
  {
    Elsewhere(w.sys, e);
    var c := w.sys.customers[0];
    if e.ShopStep? && !w.sys.shop.Polling? {
      if !w.sys.shop.Pricing? {
        ShopKeepsOrder(w.sys);
      } else if c.pc.Waiting? {
        assert CustomerInv(DeskOf(w), w.hist, |w.sys.rows|, c);
        assert Unpriced(DeskOf(w), c) == c.pc.k;
        ShopPricesLine(Refine.Base(loaded, w), w.sys, Refine.Received(w.hist), c.cart.lines[c.pc.k]);
      }
    }
  }

  lemma ServerPrices(loaded: seq<Item>, w: World, e: Event)
    requires Can(w, e) && !e.CustomerStep? && Inv(loaded, w) && Agreed(w)
    requires StoresPrice(w.sys, e) ==> !PricePending(w.sys.rows, DeskOf(w), w.sys.customers[0], w.sys.mgr.i)
    ensures Step(w, e).sys.customers == w.sys.customers && Agreed(Step(w, e))
  {
    var d, d', c := DeskOf(w), DeskOf(Step(w, e)), w.sys.customers[0];
    ServerMoves(w, e);
    ServerStanding(w, e);
    UnpricedAdvances(d, d', c);
    ServerFair(loaded, w, e);
    ChargedMoves(d, d', w.hist, |w.sys.rows|, c);
  }

  // ---- The customer's moves -------------------------------------------------------------------------------

  /** Adding a line at the price just read keeps prices in agreement. */
  lemma AddingPrices(rows: seq<Item>, d: Desk, start: nat, c: Customer)
    requires c.pc.AddScan? || c.pc.AddCheck? || c.pc.AddUnit? || c.pc.AddTotal?
    requires if c.pc.AddScan? then c.pc.i <= |rows| else c.pc.i < |rows|
    requires CartInv(rows, c) && PriceInv(rows, d, start, c)
    ensures PriceInv(rows, d, start, AddNext(rows, c))
  {
    if c.pc.AddTotal? {
      SumCostsSnoc(c.cart.lines, c.pc.line);
    }
  }

  /** Sending the order for the next line. */
  lemma SendingPrices(rows: seq<Item>, d: Desk, h: History, c: Customer)
    requires CustomerInRange(|rows|, c) && c.pc.Sending? && CustomerInv(d, h, |rows|, c) && d.replies == h.replies
    requires PriceInv(rows, d, h.start, c)
    ensures PriceInv(rows, DeskAfter(d, c, SendOrder), h.start, c.(pc := Waiting(c.pc.k)))
  {
  }

  /** Taking the response to the line sent: after a rejection every line awaits its price again. */
  lemma SettlePrices(rows: seq<Item>, d: Desk, start: nat, c: Customer)
    requires c.pc.Waiting? && c.pc.k < |c.cart.lines| && Outstanding(d, c.cart.lines[c.pc.k], start + c.pc.k)
    requires PriceInv(rows, d, start, c) && d.responses != []
    ensures d.responses[0].ResponseMsg?
    ensures var c' := Settle(c, d.responses[0].order.status);
            (c'.pc.Browsing? && c'.cart.lines != [] ==> CartStands(rows, c.cart)) ==>
              PriceInv(rows, DeskAfter(d, c, TakeResponse), start, c')
  {
  }

  /** Moves made while browsing: nothing is settled, and nothing new is priced. */
  lemma BrowsingPrices(rows: seq<Item>, d: Desk, start: nat, start': nat, c: Customer, c': Customer)
    requires c.pc.Browsing? && PriceInv(rows, d, start, c)
    requires c'.cart == c.cart || c'.cart == EMPTY_CART
    requires c'.pc.Browsing? || c'.pc.AddScan? || c'.pc == Sending(0)
    ensures PriceInv(rows, d, start', c')
  {
  }

  lemma EmptyCartAgrees(rows: seq<Item>, d: Desk, start: nat, c: Customer)
    requires c.cart.lines == [] && c.cart.total == 0.0
    requires c.pc.AddTotal? ==> PriceStands(rows, c.pc.line)
    ensures PriceInv(rows, d, start, c)
  {
  }

  lemma CustomerStays(w: World, move: Move)
    requires Can(w, CustomerStep(0, move))
    ensures var w' := Step(w, CustomerStep(0, move));
            && w'.sys.rows == w.sys.rows && |w'.sys.customers| == |w.sys.customers|
            && w'.sys.customers[0] == Moved(w.sys, w.sys.customers[0], 0, move)
            && (!move.BeginCheckout? ==> w'.hist.start == w.hist.start)
  {
  }

  /** A customer's own move keeps prices in agreement; a rejection does when the whole cart still stands. */
  lemma CustomerPrices(w: World, move: Move)
    requires Can(w, CustomerStep(0, move)) && CheckoutInv(w) && CartInv(w.sys.rows, w.sys.customers[0]) && Agreed(w)
    requires var c' := Moved(w.sys, w.sys.customers[0], 0, move);
             move.TakeResponse? && !InCheckout(c') && c'.cart.lines != [] ==>
               CartStands(w.sys.rows, w.sys.customers[0].cart)
    ensures Agreed(Step(w, CustomerStep(0, move)))
  {
    var w' := Step(w, CustomerStep(0, move));
    var c := w.sys.customers[0];
    CustomerStays(w, move);
    CustomerMoves(w, move);
    match move
    case AddStep => AddingPrices(w.sys.rows, DeskOf(w), w.hist.start, c);
    case SendOrder => SendingPrices(w.sys.rows, DeskOf(w), w.hist, c);
    case TakeResponse => SettlePrices(w.sys.rows, DeskOf(w), w.hist.start, c);
    case _ => BrowsingPrices(w.sys.rows, DeskOf(w), w.hist.start, w'.hist.start, c, w'.sys.customers[0]);
  }

  // ---- Main results -----------------------------------------------------------------------------

  lemma PriceStep(loaded: seq<Item>, w: World, e: Event)
    requires Can(w, e) && Inv(loaded, w)
    ensures Inv(loaded, Step(w, e))
  {
    Refine.RefinementStep(loaded, w, e);
    CheckoutStep(w, e);
    if e.CustomerStep? {
      CustomerStays(w, e.move);
      CartMove(w.sys, w.sys.customers[0], 0, e.move);
    } else {
      Elsewhere(w.sys, e);
      RowsFrame(w.sys, e);
      CartFrame(w.sys.rows, Step(w, e).sys.rows, w.sys.customers[0]);
    }
  }

  lemma {:induction false} PriceRun(loaded: seq<Item>, w: World, es: seq<Event>)
    requires Inv(loaded, w) && Allowed(w, es)
    ensures Inv(loaded, Execute(w, es))
    decreases |es|
  {
    if es != [] {
      PriceStep(loaded, w, es[0]);
      PriceRun(loaded, Step(w, es[0]), es[1..]);
    }
  }

  /** Where a checkout under way came from, and what it does to the cart. */
  lemma CheckoutMove(s: System, c: Customer, move: Move)
    requires CustomerInRange(|s.rows|, c) && MoveEnabled(s, c, 0, move) && InCheckout(Moved(s, c, 0, move))
    ensures Moved(s, c, 0, move).cart == c.cart
    ensures !InCheckout(c) ==> c.pc.Browsing?
  {
  }

  lemma CustomerCartStands(w: World, move: Move)
    requires Can(w, CustomerStep(0, move)) && Agreed(w) && InCheckout(Moved(w.sys, w.sys.customers[0], 0, move))
    requires InCheckout(w.sys.customers[0]) ==> CartStands(w.sys.rows, w.sys.customers[0].cart)
    ensures CartStands(w.sys.rows, Moved(w.sys, w.sys.customers[0], 0, move).cart)
  {
    CheckoutMove(w.sys, w.sys.customers[0], move);
  }

  lemma ServerCartStands(w: World, e: Event)
    requires Can(w, e) && !e.CustomerStep? && w.sys.customers != []
    requires StoresPrice(w.sys, e) ==> !InCart(w.sys.rows, w.sys.customers[0].cart, w.sys.mgr.i)
    requires CartStands(w.sys.rows, w.sys.customers[0].cart)
    ensures CartStands(Step(w, e).sys.rows, w.sys.customers[0].cart)
  {
    RowsFrame(w.sys, e);
    CartStandsFrame(w.sys.rows, Step(w, e).sys.rows, w.sys.customers[0].cart);
  }

  /** While a checkout that is going to be rejected is under way, the whole cart keeps its prices. */
  lemma RejectedStep(w: World, es: seq<Event>)
    requires Allowed(w, es) && es != [] && CheckoutInv(w) && Agreed(w) && Undisturbed(w, es)
    requires Rejected(w, es) ==> CartStands(w.sys.rows, w.sys.customers[0].cart)
    ensures |Step(w, es[0]).sys.customers| == 1
    ensures Rejected(Step(w, es[0]), es[1..]) ==>
              CartStands(Step(w, es[0]).sys.rows, Step(w, es[0]).sys.customers[0].cart)
  {
    var e := es[0];
    if e.CustomerStep? {
      CustomerStays(w, e.move);
      if Rejected(Step(w, e), es[1..]) {
        CustomerCartStands(w, e.move);
      }
    } else {
      Elsewhere(w.sys, e);
      if Rejected(Step(w, e), es[1..]) {
        ServerCartStands(w, e);
      }
    }
  }

  lemma CartStandsFrame(rows: seq<Item>, rows': seq<Item>, cart: Cart)
    requires SameNames(rows, rows') && CartStands(rows, cart)
    requires forall i :: 0 <= i < |rows| && InCart(rows, cart, i) ==> rows'[i].price == rows[i].price
    ensures CartStands(rows', cart)
  {
    forall j | 0 <= j < |cart.lines| ensures PriceStands(rows', cart.lines[j]) {
      LookupDependsOnNames(rows, rows', cart.lines[j].name);
      assert PriceStands(rows, cart.lines[j]);
      assert InCart(rows, cart, Lookup(rows, cart.lines[j].name));
    }
  }

  /** A rejection is the end of a checkout that is rejected in the run. */
  lemma Rejection(w: World, es: seq<Event>)
    requires Allowed(w, es) && es != [] && es[0] == CustomerStep(0, TakeResponse)
    requires var c' := Moved(w.sys, w.sys.customers[0], 0, TakeResponse); !InCheckout(c') && c'.cart.lines != []
    ensures Rejected(w, es)
  {
    CustomerStays(w, TakeResponse);
  }

  lemma AgreedStep(loaded: seq<Item>, w: World, es: seq<Event>)
    requires Inv(loaded, w) && Agreed(w) && Allowed(w, es) && es != [] && Undisturbed(w, es)
    requires Rejected(w, es) ==> CartStands(w.sys.rows, w.sys.customers[0].cart)
    ensures |Step(w, es[0]).sys.customers| == 1 && Agreed(Step(w, es[0]))
  {
    if es[0].CustomerStep? {
      CustomerStays(w, es[0].move);
      var c' := Moved(w.sys, w.sys.customers[0], 0, es[0].move);
      if es[0].move.TakeResponse? && !InCheckout(c') && c'.cart.lines != [] {
        Rejection(w, es);
      }
      CustomerPrices(w, es[0].move);
    } else {
      ServerPrices(loaded, w, es[0]);
    }
  }

  /** An undisturbed run keeps prices in agreement. */
  lemma {:induction false} AgreedRun(loaded: seq<Item>, w: World, es: seq<Event>)
    requires Inv(loaded, w) && Agreed(w) && Allowed(w, es) && Undisturbed(w, es)
    requires Rejected(w, es) ==> CartStands(w.sys.rows, w.sys.customers[0].cart)
    ensures Inv(loaded, Execute(w, es)) && Agreed(Execute(w, es))
    decreases |es|
  {
    if es != [] {
      PriceStep(loaded, w, es[0]);
      RejectedStep(w, es);
      AgreedStep(loaded, w, es);
      AgreedRun(loaded, Step(w, es[0]), es[1..]);
    }
  }

  lemma InitPrices(w: World)
    requires Init(w) && |w.sys.customers| == 1
    ensures Inv(w.sys.rows, w)
  {
    Refine.InitRefines(w);
  }

  /** The prices of a completed checkout, read off the invariant. */
  lemma CompletedPrices(d: Desk, h: History, n: nat, c: Customer)
    requires CustomerInRange(n, c) && c.pc.Waiting? && CustomerInv(d, h, n, c) && d.replies == h.replies
    requires d.responses != [] && c.pc.k + 1 == |c.cart.lines|
    requires c.cart.total == SumCosts(c.cart.lines) && Charged(d, h.start, c)
    ensures h.start <= |h.replies| && d.responses[0].ResponseMsg?
    ensures d.responses[0].order.status != 0 ==> SumPrices(h.replies[h.start..]) == c.cart.total
  {
    if d.responses[0].order.status != 0 {
      var replies := h.replies[h.start..];
      forall j | 0 <= j < |c.cart.lines| ensures replies[j].price == LineCost(c.cart.lines[j]) {
        assert replies[j] == h.replies[h.start + j];
      }
      SumsAgree(replies, c.cart.lines);
    }
  }

  /** Nothing in the cart, and no line half added. */
  predicate EmptyHanded(c: Customer) {
    c.cart.lines == [] && !c.pc.AddTotal?
  }

  /** Price agreement. From a reachable state with an empty cart on, let no step store a price in the row of
      a cart line still to be priced. When the customer then takes the response that completes a successful
      checkout, the prices the shop computed for this checkout sum to the total the cart shows. */
  lemma PriceAgreement(w: World, before: seq<Event>, es: seq<Event>)
    requires Init(w) && |w.sys.customers| == 1 && Allowed(w, before)
    requires |Execute(w, before).sys.customers| == 1 && EmptyHanded(Execute(w, before).sys.customers[0])
    requires Allowed(Execute(w, before), es) && Undisturbed(Execute(w, before), es)
    requires Can(Execute(Execute(w, before), es), CustomerStep(0, TakeResponse))
    ensures var v := Execute(Execute(w, before), es);
            && v.sys.customers[0].pc.Waiting?
            && v.sys.queue[First(v.sys.queue, MSG_RESPONSE)].ResponseMsg?
            && v.hist.start <= |v.hist.replies|
            && (Completes(v) ==> SumPrices(v.hist.replies[v.hist.start..]) == v.sys.customers[0].cart.total)
  {
    InitPrices(w);
    PriceRun(w.sys.rows, w, before);
    var u := Execute(w, before);
    assert CustomerInRange(|u.sys.rows|, u.sys.customers[0]);
    EmptyCartAgrees(u.sys.rows, DeskOf(u), u.hist.start, u.sys.customers[0]);
    AgreedRun(w.sys.rows, u, es);
    AgreementAt(w.sys.rows, Execute(u, es));
  }

  /** The response about to be taken accepts the last line of the cart. */
  predicate Completes(v: World) {
    && v.sys.customers != [] && v.sys.customers[0].pc.Waiting?
    && v.sys.customers[0].pc.k + 1 == |v.sys.customers[0].cart.lines|
    && First(v.sys.queue, MSG_RESPONSE) < |v.sys.queue|
    && var m := v.sys.queue[First(v.sys.queue, MSG_RESPONSE)];
    m.ResponseMsg? && m.order.status != 0
  }

  lemma AgreementAt(loaded: seq<Item>, v: World)
    requires Inv(loaded, v) && Agreed(v) && Can(v, CustomerStep(0, TakeResponse))
    ensures && v.sys.customers[0].pc.Waiting?
            && v.sys.queue[First(v.sys.queue, MSG_RESPONSE)].ResponseMsg?
            && v.hist.start <= |v.hist.replies|
            && (Completes(v) ==> SumPrices(v.hist.replies[v.hist.start..]) == v.sys.customers[0].cart.total)
  {
    CustomerMoves(v, TakeResponse);
    if v.sys.customers[0].pc.k + 1 == |v.sys.customers[0].cart.lines| {
      CompletedPrices(DeskOf(v), v.hist, |v.sys.rows|, v.sys.customers[0]);
    }
  }

  /** Every line customer `c` adds in the run finds the same price at both reads. */
  predicate SteadyReads(w: World, es: seq<Event>, c: nat)
    requires Allowed(w, es) && c < |w.sys.customers|
    decreases |es|
  {
    es == []
    || (&& (es[0] == CustomerStep(c, AddStep) && w.sys.customers[c].pc.AddTotal? ==>
              var pc := w.sys.customers[c].pc;
              assert CustomerInRange(|w.sys.rows|, w.sys.customers[c]);
              w.sys.rows[pc.i].price == pc.line.unitPrice)
        && SteadyReads(Step(w, es[0]), es[1..], c))
  }

  predicate Totalled(c: Customer) {
    && c.cart.total == SumCosts(c.cart.lines)
    && |c.cart.lines| <= MAX_CART_ITEMS
    && (c.pc.AddScan? || c.pc.AddCheck? || c.pc.AddUnit? || c.pc.AddTotal? ==> |c.cart.lines| < MAX_CART_ITEMS)
  }

  lemma MoveKeepsTotal(s: System, c: Customer, pid: nat, move: Move)
    requires CustomerInRange(|s.rows|, c) && MoveEnabled(s, c, pid, move) && Totalled(c)
    requires move.AddStep? && c.pc.AddTotal? ==> s.rows[c.pc.i].price == c.pc.line.unitPrice
    ensures Totalled(Moved(s, c, pid, move))
  {
    if move.AddStep? && c.pc.AddTotal? {
      SumCostsSnoc(c.cart.lines, c.pc.line);
    }
  }

  /** Cart total. Whatever the other processes do, a customer's total is the sum of quantity times stored
      unit price over its at most ten lines, provided each line it adds finds the same price at both reads. */
  lemma {:induction false} CartTotal(w: World, es: seq<Event>, c: nat)
    requires InRange(w.sys) && c < |w.sys.customers| && Totalled(w.sys.customers[c])
    requires Allowed(w, es) && SteadyReads(w, es, c)
    ensures var v := Execute(w, es);
            && c < |v.sys.customers|
            && v.sys.customers[c].cart.total == SumCosts(v.sys.customers[c].cart.lines)
            && |v.sys.customers[c].cart.lines| <= 10
    decreases |es|
  {
    if es != [] {
      assert CustomerInRange(|w.sys.rows|, w.sys.customers[c]);
      if es[0].CustomerStep? && es[0].c == c {
        MoveKeepsTotal(w.sys, w.sys.customers[c], c, es[0].move);
      }
      assert Totalled(Step(w, es[0]).sys.customers[c]);
      CartTotal(Step(w, es[0]), es[1..], c);
    }
  }

  /** Adding a line keeps the total equal to the sum exactly when the two reads of the price agree. */
  lemma AddKeepsTotal(rows: seq<Item>, c: Customer)
    requires c.pc.AddTotal? && c.pc.i < |rows| && c.pc.line.quantity > 0
    requires c.cart.total == SumCosts(c.cart.lines)
    ensures var cart := AddNext(rows, c).cart;
            cart.total == SumCosts(cart.lines) <==> rows[c.pc.i].price == c.pc.line.unitPrice
  {
    SumCostsSnoc(c.cart.lines, c.pc.line);
    var q, p, u := c.pc.line.quantity as real, rows[c.pc.i].price, c.pc.line.unitPrice;
    assert p * q == u * q <==> (p - u) * q == 0.0;
  }
}
