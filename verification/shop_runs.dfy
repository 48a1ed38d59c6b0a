/** Building runs of the shop step by step, and what moves do that nothing interleaves with. */
module ShopRuns {
  import opened ShopSpec
  import opened MessageQueue
  import opened ShopSystem
  import Progress = ShopProgress
  import Refine = ShopRefinement

  ghost predicate Reaches(w: World, es: seq<Event>, s: System) {
    Allowed(w, es) && Execute(w, es).sys == s
  }

  lemma {:induction false} Then(w: World, es: seq<Event>, s: System, e: Event)
    requires Reaches(w, es, s) && InRange(s) && Enabled(s, e)
    ensures Reaches(w, es + [e], Next(s, e))
    decreases |es|
  {
    if es == [] {
      assert [e][1..] == [];
    } else {
      assert (es + [e])[1..] == es[1..] + [e];
      Then(Step(w, es[0]), es[1..], s, e);
    }
  }

  /** One more step of a run. */
  lemma Go(w: World, es: seq<Event>, s: System, e: Event) returns (es': seq<Event>, s': System)
    requires Reaches(w, es, s) && InRange(s) && Enabled(s, e)
    ensures Reaches(w, es', s') && InRange(s') && s' == Next(s, e) && es' == es + [e]
  {
    Then(w, es, s, e);
    es', s' := es + [e], Next(s, e);
  }

  // ---- Stretches of a run ---------------------------------------------------------------------------

  /** Customer `c` types in an order for the first item and gets as far as the second read of its price. */
  lemma HalfAdd(w: World, es: seq<Event>, s: System, c: nat, quantity: int) returns (es': seq<Event>, s': System)
    requires Reaches(w, es, s) && InRange(s)
    requires |s.rows| > 0 && s.rows[0].quantity >= quantity > 0
    requires c < |s.customers| && s.customers[c].pc == Browsing && |s.customers[c].cart.lines| < 10
    ensures Reaches(w, es', s') && InRange(s')
    ensures var line := CartLine(s.rows[0].name, quantity, s.rows[0].price);
            s' == s.(customers := s.customers[c := Customer(s.customers[c].cart, AddTotal(line, 0))])
  {
    es', s' := Go(w, es, s, CustomerStep(c, BeginAdd(s.rows[0].name, quantity)));
    es', s' := Go(w, es', s', CustomerStep(c, AddStep));
    es', s' := Go(w, es', s', CustomerStep(c, AddStep));
    es', s' := Go(w, es', s', CustomerStep(c, AddStep));
  }

  /** A cart takes ten lines. */
  lemma {:induction false} FillCart(w: World, es: seq<Event>, s: System, c: nat) returns (es': seq<Event>, s': System)
    requires Reaches(w, es, s) && InRange(s)
    requires |s.rows| > 0 && s.rows[0].quantity > 0
    requires c < |s.customers| && s.customers[c].pc == Browsing && |s.customers[c].cart.lines| <= 10
    ensures Reaches(w, es', s') && InRange(s')
    ensures |s'.customers| == |s.customers| && s'.customers[c].pc == Browsing && |s'.customers[c].cart.lines| == 10
    decreases 10 - |s.customers[c].cart.lines|
  {
    if |s.customers[c].cart.lines| == 10 {
      es', s' := es, s;
    } else {
      es', s' := HalfAdd(w, es, s, c, 1);
      es', s' := Go(w, es', s', CustomerStep(c, AddStep));
      es', s' := FillCart(w, es', s', c);
    }
  }

  /** The manager changes the price of the first item, up to and including the store. */
  lemma Reprice(w: World, es: seq<Event>, s: System, price: real) returns (es': seq<Event>, s': System)
    requires Reaches(w, es, s) && InRange(s)
    requires |s.rows| > 0 && s.mgr == AtMenu && s.sem == 1 && price > 0.0
    ensures Reaches(w, es', s') && InRange(s')
    ensures s'.rows == s.rows[0 := s.rows[0].(price := price)] && s'.customers == s.customers
  {
    es', s' := Go(w, es, s, MgrBegin(PriceOp(s.rows[0].name, price)));
    es', s' := Go(w, es', s', MgrStep);
    es', s' := Go(w, es', s', MgrStep);
    es', s' := Go(w, es', s', MgrStep);
  }

  /** The manager starts to restock the first item, up to the read of its quantity. */
  lemma Fetch(w: World, es: seq<Event>, s: System, op: Op) returns (es': seq<Event>, s': System)
    requires Reaches(w, es, s) && InRange(s)
    requires |s.rows| > 0 && s.mgr == AtMenu && s.sem == 1
    requires op.RestockOp? && op.name == s.rows[0].name && op.quantity > 0
    ensures Reaches(w, es', s') && InRange(s')
    ensures s' == s.(sem := 0, mgr := Fetched(op, 0, s.rows[0].quantity))
  {
    es', s' := Go(w, es, s, MgrBegin(op));
    es', s' := Go(w, es', s', MgrStep);
    es', s' := Go(w, es', s', MgrStep);
    es', s' := Go(w, es', s', MgrStep);
  }

  /** The manager restocks the first item. */
  lemma Restock(w: World, es: seq<Event>, s: System, quantity: int) returns (es': seq<Event>, s': System)
    requires Reaches(w, es, s) && InRange(s)
    requires |s.rows| > 0 && s.mgr == AtMenu && s.sem == 1 && quantity > 0
    ensures Reaches(w, es', s') && InRange(s')
    ensures s' == s.(rows := s.rows[0 := s.rows[0].(quantity := s.rows[0].quantity + quantity)])
  {
    es', s' := Fetch(w, es, s, RestockOp(s.rows[0].name, quantity));
    es', s' := Go(w, es', s', MgrStep);
    es', s' := Go(w, es', s', MgrStep);
  }

  function CartOf(item: Item, quantity: int): Cart {
    Cart([CartLine(item.name, quantity, item.price)], Cost(quantity, item.price))
  }

  function FirstOrder(item: Item, quantity: int, c: nat): OrderData {
    OrderData(item.name, quantity, 0.0, c, 0)
  }

  /** Customer `c` buys some of the first item, up to waiting for the response. */
  lemma AddAndSend(w: World, es: seq<Event>, s: System, c: nat, quantity: int) returns (es': seq<Event>, s': System)
    requires Reaches(w, es, s) && InRange(s)
    requires |s.rows| > 0 && s.rows[0].quantity >= quantity > 0 && Bytes(s.queue) + ORDER_SIZE <= s.qbytes
    requires c < |s.customers| && s.customers[c] == Customer(EMPTY_CART, Browsing)
    ensures Reaches(w, es', s') && InRange(s')
    ensures s' == s.(customers := s.customers[c := Customer(CartOf(s.rows[0], quantity), Waiting(0))],
                     queue := s.queue + [OrderMsg(FirstOrder(s.rows[0], quantity, c))])
  {
    es', s' := HalfAdd(w, es, s, c, quantity);
    es', s' := Go(w, es', s', CustomerStep(c, AddStep));
    var line := CartLine(s.rows[0].name, quantity, s.rows[0].price);
    assert [] + [line] == [line];
    assert s'.customers == s.customers[c := Customer(CartOf(s.rows[0], quantity), Browsing)];
    es', s' := Go(w, es', s', CustomerStep(c, BeginCheckout));
    es', s' := Go(w, es', s', CustomerStep(c, SendOrder));
    assert s'.customers == s.customers[c := Customer(CartOf(s.rows[0], quantity), Waiting(0))];
  }

  /** The shop takes the oldest order for the first item, in stock, up to the store of the new quantity. */
  lemma TakeOrder(w: World, es: seq<Event>, s: System, o: OrderData) returns (es': seq<Event>, s': System)
    requires Reaches(w, es, s) && InRange(s) && s.sem == 1 && s.shop == Polling
    requires |s.queue| > 0 && s.queue[0] == OrderMsg(o)
    requires |s.rows| > 0 && s.rows[0].name == o.name && s.rows[0].quantity >= o.quantity
    ensures Reaches(w, es', s') && InRange(s')
    ensures var left := s.rows[0].quantity - o.quantity;
            s' == s.(queue := s.queue[1..], sem := 0, shop := Writing(o.(status := 0), 0, left))
  {
    assert First(s.queue, MSG_ORDER) == 0;
    es', s' := Go(w, es, s, ShopStep);
    es', s' := Go(w, es', s', ShopStep);
    es', s' := Go(w, es', s', ShopStep);
    es', s' := Go(w, es', s', ShopStep);
    es', s' := Go(w, es', s', ShopStep);
  }

  /** ... and from there, with enough left to raise no alert, to putting the response on the queue. */
  lemma Answer(w: World, es: seq<Event>, s: System) returns (es': seq<Event>, s': System)
    requires Reaches(w, es, s) && InRange(s) && s.sem == 0 && s.shop.Writing?
    requires s.shop.left > 0 && s.shop.left > s.rows[s.shop.i].lowThreshold
    requires Bytes(s.queue) + ORDER_SIZE <= s.qbytes
    ensures Reaches(w, es', s') && InRange(s')
    ensures var o := s.shop.order;
            s'.queue == s.queue + [ResponseMsg(o.(status := 1, price := Cost(o.quantity, s.rows[s.shop.i].price)))]
    ensures s'.customers == s.customers
  {
    es', s' := Go(w, es, s, ShopStep);
    es', s' := Go(w, es', s', ShopStep);
    es', s' := Go(w, es', s', ShopStep);
    es', s' := Go(w, es', s', ShopStep);
    es', s' := Go(w, es', s', ShopStep);
  }

  // ---- Moves that nothing interleaves with --------------------------------------------------------------

  predicate Adding(pc: CustomerPc) {
    pc.AddScan? || pc.AddCheck? || pc.AddUnit? || pc.AddTotal?
  }

  function StepsToAdd(rows: seq<Item>, pc: CustomerPc): int {
    match pc
    case AddScan(_, _, i) => |rows| - i + 4
    case AddCheck(_, _, _) => 3
    case AddUnit(_, _, _) => 2
    case AddTotal(_, _) => 1
    case _ => 0
  }

  /** add_to_cart from its search on, when the inventory stays as it is. */
  function AddAlone(rows: seq<Item>, c: Customer): Customer
    requires CustomerInRange(|rows|, c)
    decreases StepsToAdd(rows, c.pc)
  {
    if Adding(c.pc) then AddAlone(rows, AddNext(rows, c)) else c
  }

  lemma AddOnce(rows: seq<Item>, c: Customer)
    requires CustomerInRange(|rows|, c) && Adding(c.pc)
    ensures CustomerInRange(|rows|, AddNext(rows, c)) && AddAlone(rows, c) == AddAlone(rows, AddNext(rows, c))
  {
  }

  /** From the row found on. */
  lemma AddFound(rows: seq<Item>, c: Customer, line: CartLine, i: nat)
    requires i < |rows| && c.pc == AddCheck(line.name, line.quantity, i) && line.unitPrice == rows[i].price
    ensures AddAlone(rows, c)
         == if rows[i].quantity >= line.quantity
            then Customer(Cart(c.cart.lines + [line], c.cart.total + rows[i].price * line.quantity as real), Browsing)
            else Customer(c.cart, Browsing)
  {
    AddOnce(rows, c);
    if rows[i].quantity >= line.quantity {
      var read := c.(pc := AddUnit(line.name, line.quantity, i));
      var half := c.(pc := AddTotal(line, i));
      assert AddNext(rows, c) == read && AddNext(rows, read) == half;
      AddOnce(rows, read);
      AddOnce(rows, half);
    }
  }

  /** Adding alone, exactly: with enough stock of the first item of that name the cart gets one more line, at
      the item's price, and its cost; otherwise nothing changes. */
  lemma {:induction false} AddOutcome(rows: seq<Item>, c: Customer)
    requires c.pc.AddScan? && c.pc.i <= Lookup(rows, c.pc.name)
    ensures var name, quantity, i := c.pc.name, c.pc.quantity, Lookup(rows, c.pc.name);
            AddAlone(rows, c)
            == if i < |rows| && rows[i].quantity >= quantity
               then Customer(Cart(c.cart.lines + [CartLine(name, quantity, rows[i].price)],
                                  c.cart.total + rows[i].price * quantity as real), Browsing)
               else Customer(c.cart, Browsing)
    decreases |rows| - c.pc.i
  {
    var i := c.pc.i;
    AddOnce(rows, c);
    if i < |rows| {
      if rows[i].name != c.pc.name {
        AddOutcome(rows, c.(pc := AddScan(c.pc.name, c.pc.quantity, i + 1)));
      } else {
        var line := CartLine(c.pc.name, c.pc.quantity, rows[i].price);
        AddFound(rows, c.(pc := AddCheck(line.name, line.quantity, i)), line, i);
      }
    }
  }

  /** clear_cart leaves no line and no total, so that an item can be added again. */
  lemma ClearOutcome(s: System, c: Customer, pid: nat, name: string)
    requires CustomerInRange(|s.rows|, c) && c.pc.Browsing?
    ensures MoveEnabled(s, c, pid, ClearCart)
    ensures var c' := Moved(s, c, pid, ClearCart);
            c'.cart.lines == [] && c'.cart.total == 0.0 && MoveEnabled(s, c', pid, BeginAdd(name, 1))
  {
  }

  /** Everything but the rows, the semaphore and the manager. */
  predicate SameElsewhere(s: System, s': System) {
    s' == s.(rows := s'.rows, sem := s'.sem, mgr := s'.mgr)
  }

  lemma MgrStaysInside(s: System)
    requires InRange(s) && Enabled(s, MgrStep) && Refine.MgrInside(s)
    ensures var s' := MgrNext(s);
            && SameElsewhere(s, s')
            && (if Refine.MgrInside(s') then s'.sem == s.sem else s'.mgr == AtMenu && s'.sem == s.sem + 1)
            && (s.mgr.Releasing? <==> !Refine.MgrInside(s'))
            && (s.mgr.Releasing? ==> s'.rows == s.rows)
            && 0 <= Progress.MgrWork(s') < Progress.MgrWork(s)
  {
  }

  /** The manager's steps from the lock to the end of the operation. */
  lemma {:induction false} ManagerFinishes(w: World, es: seq<Event>, s: System, base: seq<Item>, op: Op)
    returns (es': seq<Event>, s': System)
    requires Reaches(w, es, s) && InRange(s) && Refine.MgrInside(s) && Refine.MgrProgress(base, s, op)
    ensures Reaches(w, es', s') && InRange(s') && es <= es'
    ensures s'.mgr == AtMenu && s'.sem == s.sem + 1 && s'.rows == Apply(base, op)
    ensures SameElsewhere(s, s')
    decreases Progress.MgrWork(s)
  {
    MgrStaysInside(s);
    es', s' := Go(w, es, s, MgrStep);
    if !s.mgr.Releasing? {
      Refine.MgrProgressStep(base, s, op);
      es', s' := ManagerFinishes(w, es', s', base, op);
    }
  }

  lemma ManagerLocks(s: System, op: Op)
    requires InRange(s) && s.sem == 1 && s.mgr == WantLock(op) && !op.OrderOp?
    ensures Enabled(s, MgrStep) && Refine.MgrInside(MgrNext(s)) && MgrNext(s).sem == 0
    ensures Refine.MgrProgress(s.rows, MgrNext(s), op)
    ensures SameElsewhere(s, MgrNext(s))
  {
  }

  /** A manager's operation chosen from the menu while the semaphore is free can be carried through, and then
      has had its effect and no other. */
  lemma ManagerServes(w: World, es: seq<Event>, op: Op) returns (es': seq<Event>)
    requires Allowed(w, es) && InRange(Execute(w, es).sys)
    requires Execute(w, es).sys.mgr == AtMenu && Execute(w, es).sys.sem == 1
    requires op.ShowOp? || (op.RestockOp? && op.quantity > 0) || (op.PriceOp? && op.price > 0.0)
    ensures Allowed(w, es') && es + [MgrBegin(op), MgrStep] <= es'
    ensures var s := Execute(w, es).sys;
            Execute(w, es').sys == s.(rows := Apply(s.rows, op))
  {
    var s := Execute(w, es).sys;
    var base := s.rows;
    var t: System;
    es', t := Go(w, es, s, MgrBegin(op));
    ManagerLocks(t, op);
    es', t := Go(w, es', t, MgrStep);
    assert es' == es + [MgrBegin(op), MgrStep];
    es', t := ManagerFinishes(w, es', t, base, op);
  }
}
