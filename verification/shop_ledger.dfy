/** Conservation of stock over every run. */
module ShopLedger {
  import opened ShopSpec
  import opened MessageQueue
  import opened ShopSystem
  import opened ShopRefinement

  // ---- Sequential conservation ------------------------------------------------------------------

  /** Units the restocks among `ops` added to row `i`. */
  function Restocked(loaded: seq<Item>, ops: seq<Op>, i: nat): int {
    if ops == [] then 0
    else
      var op := ops[|ops| - 1];
      Restocked(loaded, ops[..|ops| - 1], i)
      + if op.RestockOp? && Lookup(loaded, op.name) == i then op.quantity else 0
  }

  /** Units of row `i` handed out by the accepted orders among the replies. */
  function Sold(loaded: seq<Item>, replies: seq<OrderData>, i: nat): int {
    if replies == [] then 0
    else
      var r := replies[|replies| - 1];
      Sold(loaded, replies[..|replies| - 1], i)
      + if r.status == 1 && Lookup(loaded, r.name) == i then r.quantity else 0
  }

  lemma SoldSnoc(loaded: seq<Item>, replies: seq<OrderData>, r: OrderData, i: nat)
    ensures Sold(loaded, replies + [r], i)
         == Sold(loaded, replies, i) + if r.status == 1 && Lookup(loaded, r.name) == i then r.quantity else 0
  {
    assert (replies + [r])[..|replies|] == replies;
  }

  /** One operation changes a row by what it restocks or hands out. */
  lemma OneOp(loaded: seq<Item>, rows: seq<Item>, op: Op, i: nat)
    requires SameNames(loaded, rows) && i < |rows|
    ensures |Apply(rows, op)| == |rows|
    ensures Apply(rows, op)[i].quantity
         == rows[i].quantity
            + (if op.RestockOp? && Lookup(loaded, op.name) == i then op.quantity else 0)
            - Sold(loaded, ReplyOf(rows, op), i)
  {
    match op
    case OrderOp(o) =>
      LookupDependsOnNames(loaded, rows, o.name);
      SoldSnoc(loaded, [], ApplyOrder(rows, o).reply, i);
      assert [] + [ApplyOrder(rows, o).reply] == ReplyOf(rows, op);
    case RestockOp(name, _) => LookupDependsOnNames(loaded, rows, name);
    case _ =>
  }

  lemma SoldConcat(loaded: seq<Item>, rows: seq<Item>, replies: seq<OrderData>, op: Op, i: nat)
    ensures Sold(loaded, replies + ReplyOf(rows, op), i)
         == Sold(loaded, replies, i) + Sold(loaded, ReplyOf(rows, op), i)
  {
    if op.OrderOp? {
      var r := ApplyOrder(rows, op.order).reply;
      SoldSnoc(loaded, replies, r, i);
      SoldSnoc(loaded, [], r, i);
      assert [] + [r] == [r];
    } else {
      assert replies + [] == replies;
    }
  }

  lemma {:induction false} Conservation(loaded: seq<Item>, ops: seq<Op>, i: nat)
    requires i < |loaded|
    ensures |Replay(loaded, ops)| == |loaded|
    ensures Replay(loaded, ops)[i].quantity
         == loaded[i].quantity + Restocked(loaded, ops, i) - Sold(loaded, Replies(loaded, ops), i)
  {
    if ops != [] {
      var init, op := ops[..|ops| - 1], ops[|ops| - 1];
      Conservation(loaded, init, i);
      ReplayKeepsNames(loaded, init);
      OneOp(loaded, Replay(loaded, init), op, i);
      SoldConcat(loaded, Replay(loaded, init), Replies(loaded, init), op, i);
    }
  }

  predicate PositiveOp(op: Op) {
    (op.OrderOp? ==> op.order.quantity > 0) && (op.RestockOp? ==> op.quantity > 0)
  }

  ghost predicate NonNegative(rows: seq<Item>) {
    forall k :: 0 <= k < |rows| ==> rows[k].quantity >= 0
  }

  lemma {:induction false} ReplayNonNegative(loaded: seq<Item>, ops: seq<Op>)
    requires NonNegative(loaded)
    requires forall k :: 0 <= k < |ops| ==> PositiveOp(ops[k])
    ensures NonNegative(Replay(loaded, ops))
  {
    if ops != [] {
      ReplayNonNegative(loaded, ops[..|ops| - 1]);
      assert PositiveOp(ops[|ops| - 1]);
    }
  }

  // ---- Every order quantity is positive --------------------------------------------------------

  predicate PositiveCustomer(c: Customer) {
    && (forall k :: 0 <= k < |c.cart.lines| ==> c.cart.lines[k].quantity > 0)
    && match c.pc
       case AddScan(_, quantity, _) => quantity > 0
       case AddCheck(_, quantity, _) => quantity > 0
       case AddUnit(_, quantity, _) => quantity > 0
       case AddTotal(line, _) => line.quantity > 0
       case _ => true
  }

  predicate PositiveMgr(mgr: MgrPc) {
    match mgr
    case WantLock(op) => PositiveOp(op)
    case Seeking(op, _) => PositiveOp(op)
    case Matched(op, _) => PositiveOp(op)
    case Fetched(op, _, _) => PositiveOp(op)
    case _ => true
  }

  predicate PositiveMsg(m: Msg) {
    m.OrderMsg? ==> m.order.quantity > 0
  }

  ghost predicate PositiveQueue(q: seq<Msg>) {
    forall k :: 0 <= k < |q| ==> PositiveMsg(q[k])
  }

  lemma PositiveTraffic(q: seq<Msg>, traffic: Traffic)
    requires Possible(q, traffic) && PositiveQueue(q)
    requires traffic.Sent? ==> PositiveMsg(traffic.msg)
    ensures PositiveQueue(After(q, traffic))
  {
  }

  /** The units a cart line asks for are positive, hence so is every order on its way to the shop. */
  ghost predicate PositiveInv(w: World) {
    && (forall c :: 0 <= c < |w.sys.customers| ==> PositiveCustomer(w.sys.customers[c]))
    && PositiveQueue(w.sys.queue)
    && (!w.sys.shop.Polling? ==> w.sys.shop.order.quantity > 0)
    && PositiveMgr(w.sys.mgr)
    && (forall k :: 0 <= k < |w.hist.ops| ==> PositiveOp(w.hist.ops[k]))
  }

  lemma PositiveShopStep(w: World)
    requires Can(w, ShopStep) && PositiveInv(w)
    ensures PositiveInv(Step(w, ShopStep))
  {
    var s, s' := w.sys, Step(w, ShopStep).sys;
    assert s'.customers == s.customers && s'.mgr == s.mgr;
    QueueAfter(s, ShopStep);
    OrderTraffic(s, ShopStep);
    PositiveTraffic(s.queue, TrafficOf(s, ShopStep));
    if s.shop.Polling? && First(s.queue, MSG_ORDER) < |s.queue| {
      assert PositiveMsg(s.queue[First(s.queue, MSG_ORDER)]);
    }
  }

  lemma PositiveMgrStep(w: World)
    requires Can(w, MgrStep) && PositiveInv(w)
    ensures PositiveInv(Step(w, MgrStep))
  {
    var s, s' := w.sys, Step(w, MgrStep).sys;
    assert s'.customers == s.customers && s'.shop == s.shop && s'.queue == s.queue;
  }

  lemma PositiveMove(s: System, c: Customer, pid: nat, move: Move)
    requires CustomerInRange(|s.rows|, c) && MoveEnabled(s, c, pid, move) && PositiveCustomer(c)
    ensures PositiveCustomer(Moved(s, c, pid, move))
    ensures move.SendOrder? ==> OrderFor(c, pid).quantity > 0
  {
  }

  lemma PositiveCustomerStep(w: World, c: nat, move: Move)
    requires Can(w, CustomerStep(c, move)) && PositiveInv(w)
    ensures PositiveInv(Step(w, CustomerStep(c, move)))
  {
    var s, s' := w.sys, Step(w, CustomerStep(c, move)).sys;
    assert s'.mgr == s.mgr && s'.shop == s.shop;
    PositiveMove(s, s.customers[c], c, move);
    QueueAfter(s, CustomerStep(c, move));
    PositiveTraffic(s.queue, TrafficOf(s, CustomerStep(c, move)));
  }

  lemma PositiveNotifierStep(w: World)
    requires Can(w, NotifierStep) && PositiveInv(w)
    ensures PositiveInv(Step(w, NotifierStep))
  {
    QueueAfter(w.sys, NotifierStep);
    PositiveTraffic(w.sys.queue, TrafficOf(w.sys, NotifierStep));
  }

  lemma PositiveStep(w: World, e: Event)
    requires Can(w, e) && PositiveInv(w)
    ensures PositiveInv(Step(w, e))
  {
    match e
    case ShopStep => PositiveShopStep(w);
    case MgrStep => PositiveMgrStep(w);
    case CustomerStep(c, move) => PositiveCustomerStep(w, c, move);
    case NotifierStep => PositiveNotifierStep(w);
    case MgrBegin(_) =>
  }

  lemma {:induction false} PositiveRun(w: World, es: seq<Event>)
    requires PositiveInv(w) && Allowed(w, es)
    ensures PositiveInv(Execute(w, es))
    decreases |es|
  {
    if es != [] {
      PositiveStep(w, es[0]);
      PositiveRun(Step(w, es[0]), es[1..]);
    }
  }

  // ---- Main results -----------------------------------------------------------------------------

  /** The operation inside takes effect on the rows in a single write. */
  lemma ShopWritesOnce(base: seq<Item>, s: System, op: Op)
    requires InRange(s) && ShopInside(s) && ShopProgress(base, s, op)
    ensures s.rows == base || s.rows == Apply(base, op)
  {
  }

  lemma MgrWritesOnce(base: seq<Item>, s: System, op: Op)
    requires InRange(s) && MgrInside(s) && MgrProgress(base, s, op)
    ensures s.rows == base || s.rows == Apply(base, op)
  {
  }

  lemma RowsAreBaseOrDone(loaded: seq<Item>, w: World)
    requires InRange(w.sys) && InventoryInv(loaded, w)
    ensures w.sys.rows == Base(loaded, w) || w.sys.rows == Replay(loaded, w.hist.ops)
    ensures !Held(w.sys) ==> w.sys.rows == Replay(loaded, w.hist.ops)
  {
    if Held(w.sys) {
      assert w.hist.ops == Done(w) + [Received(w.hist)];
      ReplaySnoc(loaded, Done(w), Received(w.hist));
      if ShopInside(w.sys) {
        ShopWritesOnce(Base(loaded, w), w.sys, Received(w.hist));
      } else {
        MgrWritesOnce(Base(loaded, w), w.sys, Received(w.hist));
      }
    }
  }

  lemma RowsNonNegative(loaded: seq<Item>, w: World)
    requires InRange(w.sys) && InventoryInv(loaded, w) && PositiveInv(w) && NonNegative(loaded)
    ensures SameNames(loaded, w.sys.rows) && NonNegative(w.sys.rows)
  {
    RowsAreBaseOrDone(loaded, w);
    ReplayNonNegative(loaded, Done(w));
    ReplayNonNegative(loaded, w.hist.ops);
    ReplayKeepsNames(loaded, Done(w));
    ReplayKeepsNames(loaded, w.hist.ops);
  }

  /** Stock conservation. Outside the locked regions each row holds what was loaded, plus the completed
      restocks of that row, minus the orders for it that were accepted (counting a reply still on its
      way to the queue). No row is ever negative, not even in the middle of an operation. */
  lemma StockConservation(w: World, es: seq<Event>, i: nat)
    requires Init(w) && Allowed(w, es) && i < |w.sys.rows|
    ensures var v := Execute(w, es);
            && |v.sys.rows| == |w.sys.rows|
            && v.sys.rows[i].name == w.sys.rows[i].name
            && v.sys.rows[i].quantity >= 0
            && (!Held(v.sys) ==>
                  var answered := v.hist.replies + if v.sys.shop.Replying? then [v.sys.shop.order] else [];
                  v.sys.rows[i].quantity
                  == w.sys.rows[i].quantity + Restocked(w.sys.rows, v.hist.ops, i) - Sold(w.sys.rows, answered, i))
  {
    InitRefines(w);
    RefinementRun(w.sys.rows, w, es);
    PositiveRun(w, es);
    RowsNonNegative(w.sys.rows, Execute(w, es));
    Conservation(w.sys.rows, Done(Execute(w, es)), i);
  }

  /** The quantity a restock or an order is about to write, against the one it replaces. */
  lemma RaisingStep(loaded: seq<Item>, w: World, e: Event, i: nat)
    requires Can(w, e) && InventoryInv(loaded, w) && PositiveInv(w) && i < |w.sys.rows|
    ensures var w' := Step(w, e);
            && |w'.sys.rows| == |w.sys.rows|
            && (w'.sys.rows[i].quantity > w.sys.rows[i].quantity ==>
                  e.MgrStep? && w.sys.mgr.Fetched? && w.sys.mgr.i == i)
  {
    match e
    case ShopStep =>
      if w.sys.shop.Writing? {
        assert ShopProgress(Base(loaded, w), w.sys, Received(w.hist));
      }
    case MgrStep =>
    case _ =>
      OtherSteps(w, e);
  }

  /** Only the write of a restock ever raises a quantity. */
  lemma OnlyRestocksRaise(w: World, es: seq<Event>, e: Event, i: nat)
    requires Init(w) && Allowed(w, es) && Can(Execute(w, es), e)
    requires i < |Execute(w, es).sys.rows|
    ensures var v := Execute(w, es);
            var v' := Step(v, e);
            && |v'.sys.rows| == |v.sys.rows|
            && (v'.sys.rows[i].quantity > v.sys.rows[i].quantity ==>
                  e.MgrStep? && v.sys.mgr.Fetched? && v.sys.mgr.i == i)
  {
    InitRefines(w);
    RefinementRun(w.sys.rows, w, es);
    PositiveRun(w, es);
    RaisingStep(w.sys.rows, Execute(w, es), e, i);
  }
}
