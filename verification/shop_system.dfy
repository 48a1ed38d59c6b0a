/** The shop, the inventory manager (menu thread and notifier thread) and any number of customers,
    interleaved at the granularity of single reads, comparisons and writes of shared memory.

    Every process has a program counter. An event names the process that moves next and, where the
    move depends on a user, what the user typed. `Enabled` says when a move does not block. */
module ShopSystem {
  import opened ShopSpec
  import opened MessageQueue

  // ---- Processes ------------------------------------------------------------------------------

  /** process_order; the argument order is the message buffer the loop works on. */
  datatype ShopPc =
    | Polling
    | Locking(order: OrderData)
    | Scanning(order: OrderData, i: nat)
    | Comparing(order: OrderData, i: nat)
    | Reading(order: OrderData, i: nat)
    | Writing(order: OrderData, i: nat, left: int)
    | Pricing(order: OrderData, i: nat, left: int)
    | Alerting(order: OrderData, i: nat, left: int)
    | Unlocking(order: OrderData)
    | Replying(order: OrderData)

  /** restock_item, update_price and display_inventory. */
  datatype MgrPc =
    | AtMenu
    | WantLock(op: Op)
    | Seeking(op: Op, i: nat)
    | Matched(op: Op, i: nat)
    | Fetched(op: Op, i: nat, quantity: int)
    | Showing(rows: seq<Item>)
    | Releasing(op: Op, rows: seq<Item>)

  /** notification_handler: which of its two msgrcv calls comes next. */
  datatype NotifierPc = PollLow | PollOut

  const MAX_CART_ITEMS: nat := 10

  datatype CartLine = CartLine(name: string, quantity: int, unitPrice: real)

  datatype Cart = Cart(lines: seq<CartLine>, total: real)

  const EMPTY_CART := Cart([], 0.0)

  /** add_to_cart and checkout; `k` is the cart line being checked out. */
  datatype CustomerPc =
    | Browsing
    | AddScan(name: string, quantity: int, i: nat)
    | AddCheck(name: string, quantity: int, i: nat)
    | AddUnit(name: string, quantity: int, i: nat)
    | AddTotal(line: CartLine, i: nat)
    | Sending(k: nat)
    | Waiting(k: nat)

  datatype Customer = Customer(cart: Cart, pc: CustomerPc)

  datatype System = System(
    rows: seq<Item>,
    sem: nat,
    queue: seq<Msg>,
    qbytes: nat,
    shop: ShopPc,
    mgr: MgrPc,
    notifier: NotifierPc,
    customers: seq<Customer>)

  datatype Move =
    | BeginAdd(name: string, quantity: int)
    | AddStep
    | ClearCart
    | BeginCheckout
    | SendOrder
    | TakeResponse

  /** Who moves next. */
  datatype Event =
    | ShopStep
    | MgrBegin(op: Op)
    | MgrStep
    | NotifierStep
    | CustomerStep(c: nat, move: Move)

  /** What a run leaves behind for stating properties; no step depends on it. */
  datatype History = History(
    ops: seq<Op>,               // locked operations, in the order they acquired the semaphore
    replies: seq<OrderData>,    // replies the shop has put on the queue
    attempts: seq<Attempt>,     // alerts the shop has tried to send
    taken: seq<Alert>,          // alerts the notifier has received
    shown: seq<View>,           // inventories the manager has displayed
    start: nat)                 // |replies| when a checkout last began

  datatype Attempt = Attempt(alert: Alert, sent: bool)

  /** Rows displayed by the operation at position `op` of the history's `ops`. */
  datatype View = View(op: nat, rows: seq<Item>)

  datatype World = World(sys: System, hist: History)

  // ---- Program positions are in range -----------------------------------------------------------

  predicate ShopInRange(s: System) {
    match s.shop
    case Scanning(_, i) => i <= |s.rows|
    case Comparing(_, i) => i < |s.rows|
    case Reading(_, i) => i < |s.rows|
    case Writing(_, i, _) => i < |s.rows|
    case Pricing(_, i, _) => i < |s.rows|
    case Alerting(_, i, _) => i < |s.rows|
    case _ => true
  }

  predicate MgrInRange(s: System) {
    match s.mgr
    case WantLock(op) => !op.OrderOp?
    case Seeking(op, i) => i <= |s.rows| && (op.RestockOp? || op.PriceOp?)
    case Matched(op, i) => i < |s.rows| && (op.RestockOp? || op.PriceOp?)
    case Fetched(op, i, _) => i < |s.rows| && op.RestockOp?
    case Showing(shown) => |shown| <= |s.rows|
    case Releasing(op, _) => !op.OrderOp?
    case AtMenu => true
  }

  predicate CustomerInRange(n: nat, c: Customer) {
    match c.pc
    case Browsing => true
    case AddScan(_, _, i) => i <= n
    case AddCheck(_, _, i) => i < n
    case AddUnit(_, _, i) => i < n
    case AddTotal(_, i) => i < n
    case Sending(k) => k < |c.cart.lines|
    case Waiting(k) => k < |c.cart.lines|
  }

  predicate CustomersInRange(n: nat, customers: seq<Customer>) {
    forall c :: 0 <= c < |customers| ==> CustomerInRange(n, customers[c])
  }

  predicate InRange(s: System) {
    && ShopInRange(s)
    && MgrInRange(s)
    && CustomersInRange(|s.rows|, s.customers)
  }

  // ---- Steps ------------------------------------------------------------------------------------

  predicate Enabled(s: System, e: Event)
    requires InRange(s)
  {
    match e
    case ShopStep =>
      (match s.shop
       case Locking(_) => s.sem > 0
       case Replying(o) => HasRoom(s.queue, ResponseMsg(o), s.qbytes)
       case _ => true)
    case MgrBegin(op) =>
      && s.mgr.AtMenu?
      && !op.OrderOp?
      && (op.RestockOp? ==> op.quantity > 0)
      && (op.PriceOp? ==> op.price > 0.0)
    case MgrStep =>
      (match s.mgr
       case AtMenu => false
       case WantLock(_) => s.sem > 0
       case _ => true)
    case NotifierStep => true
    case CustomerStep(c, move) => c < |s.customers| && MoveEnabled(s, s.customers[c], c, move)
  }

  predicate MoveEnabled(s: System, c: Customer, pid: nat, move: Move)
    requires CustomerInRange(|s.rows|, c)
  {
    match move
    case BeginAdd(_, quantity) => c.pc.Browsing? && |c.cart.lines| < MAX_CART_ITEMS && quantity > 0
    case AddStep => c.pc.AddScan? || c.pc.AddCheck? || c.pc.AddUnit? || c.pc.AddTotal?
    case ClearCart => c.pc.Browsing?
    case BeginCheckout => c.pc.Browsing? && c.cart.lines != []
    case SendOrder => c.pc.Sending? && HasRoom(s.queue, OrderMsg(OrderFor(c, pid)), s.qbytes)
    case TakeResponse => c.pc.Waiting? && First(s.queue, MSG_RESPONSE) < |s.queue|
  }

  /** The order for a cart line: a zeroed message with the line's name and quantity. */
  function LineOrder(line: CartLine, pid: nat): OrderData {
    OrderData(line.name, line.quantity, 0.0, pid, 0)
  }

  function OrderFor(c: Customer, pid: nat): OrderData
    requires c.pc.Sending? && c.pc.k < |c.cart.lines|
  {
    LineOrder(c.cart.lines[c.pc.k], pid)
  }

  /** Alerts go out with IPC_NOWAIT: one that does not fit is dropped. */
  function SendAlerts(q: seq<Msg>, alerts: seq<Alert>, qbytes: nat): seq<Msg> {
    if |alerts| == 1 && HasRoom(q, AlertMsg(alerts[0]), qbytes) then q + [AlertMsg(alerts[0])] else q
  }

  function ShopNext(s: System): (s': System)
    requires InRange(s) && Enabled(s, ShopStep)
    ensures |s'.rows| == |s.rows| && InRange(s')
  {
    match s.shop
    case Polling =>
      var i := First(s.queue, MSG_ORDER);
      if i == |s.queue| then s
      else s.(queue := Remove(s.queue, i), shop := Locking(s.queue[i].order.(status := 0)))
    case Locking(o) =>
      s.(sem := s.sem - 1, shop := Scanning(o, 0))
    case Scanning(o, i) =>
      if i == |s.rows| then s.(shop := Unlocking(o))
      else if s.rows[i].name == o.name then s.(shop := Comparing(o, i))
      else s.(shop := Scanning(o, i + 1))
    case Comparing(o, i) =>
      if s.rows[i].quantity >= o.quantity then s.(shop := Reading(o, i)) else s.(shop := Unlocking(o))
    case Reading(o, i) =>
      s.(shop := Writing(o, i, s.rows[i].quantity - o.quantity))
    case Writing(o, i, left) =>
      s.(rows := s.rows[i := s.rows[i].(quantity := left)], shop := Pricing(o, i, left))
    case Pricing(o, i, left) =>
      s.(shop := Alerting(o.(status := 1, price := Cost(o.quantity, s.rows[i].price)), i, left))
    case Alerting(o, i, left) =>
      s.(queue := SendAlerts(s.queue, AlertsFor(s.rows[i], left), s.qbytes), shop := Unlocking(o))
    case Unlocking(o) =>
      s.(sem := s.sem + 1, shop := Replying(o))
    case Replying(o) =>
      s.(queue := s.queue + [ResponseMsg(o)], shop := Polling)
  }

  function MgrNext(s: System): (s': System)
    requires InRange(s) && Enabled(s, MgrStep)
    ensures |s'.rows| == |s.rows| && InRange(s')
  {
    match s.mgr
    case WantLock(op) =>
      s.(sem := s.sem - 1, mgr := if op.ShowOp? then Showing([]) else Seeking(op, 0))
    case Seeking(op, i) =>
      if i == |s.rows| then s.(mgr := Releasing(op, []))
      else if s.rows[i].name == op.name then s.(mgr := Matched(op, i))
      else s.(mgr := Seeking(op, i + 1))
    case Matched(op, i) =>
      if op.RestockOp? then s.(mgr := Fetched(op, i, s.rows[i].quantity))
      else s.(rows := s.rows[i := s.rows[i].(price := op.price)], mgr := Releasing(op, []))
    case Fetched(op, i, quantity) =>
      s.(rows := s.rows[i := s.rows[i].(quantity := quantity + op.quantity)], mgr := Releasing(op, []))
    case Showing(shown) =>
      if |shown| == |s.rows| then s.(mgr := Releasing(ShowOp, shown))
      else s.(mgr := Showing(shown + [s.rows[|shown|]]))
    case Releasing(_, _) =>
      s.(sem := s.sem + 1, mgr := AtMenu)
  }

  function NotifierNext(s: System): (s': System)
    ensures InRange(s) ==> InRange(s')
  {
    var t := if s.notifier.PollLow? then MSG_NOTIFY_LOW_STOCK else MSG_NOTIFY_OUT_OF_STOCK;
    var i := First(s.queue, t);
    if i < |s.queue| then s.(queue := Remove(s.queue, i), notifier := PollLow)
    else if s.notifier.PollLow? then s.(notifier := PollOut)
    else s.(notifier := PollLow)
  }

  function AddNext(rows: seq<Item>, c: Customer): Customer
    requires c.pc.AddScan? || c.pc.AddCheck? || c.pc.AddUnit? || c.pc.AddTotal?
    requires if c.pc.AddScan? then c.pc.i <= |rows| else c.pc.i < |rows|
  {
    match c.pc
    case AddScan(name, quantity, i) =>
      if i == |rows| then c.(pc := Browsing)
      else if rows[i].name == name then c.(pc := AddCheck(name, quantity, i))
      else c.(pc := AddScan(name, quantity, i + 1))
    case AddCheck(name, quantity, i) =>
      c.(pc := if rows[i].quantity >= quantity then AddUnit(name, quantity, i) else Browsing)
    case AddUnit(name, quantity, i) =>
      c.(pc := AddTotal(CartLine(name, quantity, rows[i].price), i))
    case AddTotal(line, i) =>
      Customer(Cart(c.cart.lines + [line], c.cart.total + Cost(line.quantity, rows[i].price)), Browsing)
  }

  /** What the checkout loop does with a response: stop on failure, go on, or finish and empty the cart. */
  function Settle(c: Customer, status: int): Customer
    requires c.pc.Waiting? && c.pc.k < |c.cart.lines|
  {
    if status == 0 then c.(pc := Browsing)
    else if c.pc.k + 1 < |c.cart.lines| then c.(pc := Sending(c.pc.k + 1))
    else Customer(EMPTY_CART, Browsing)
  }

  /** The customer after a move. */
  function Moved(s: System, c: Customer, pid: nat, move: Move): (c': Customer)
    requires CustomerInRange(|s.rows|, c) && MoveEnabled(s, c, pid, move)
    ensures CustomerInRange(|s.rows|, c')
  {
    match move
    case BeginAdd(name, quantity) => c.(pc := AddScan(name, quantity, 0))
    case AddStep => AddNext(s.rows, c)
    case ClearCart => Customer(EMPTY_CART, Browsing)
    case BeginCheckout => c.(pc := Sending(0))
    case SendOrder => c.(pc := Waiting(c.pc.k))
    case TakeResponse => Settle(c, s.queue[First(s.queue, MSG_RESPONSE)].order.status)
  }

  function MovedQueue(s: System, c: Customer, pid: nat, move: Move): seq<Msg>
    requires CustomerInRange(|s.rows|, c) && MoveEnabled(s, c, pid, move)
  {
    if move.SendOrder? then s.queue + [OrderMsg(OrderFor(c, pid))]
    else if move.TakeResponse? then Remove(s.queue, First(s.queue, MSG_RESPONSE))
    else s.queue
  }

  function CustomerNext(s: System, c: nat, move: Move): (s': System)
    requires InRange(s) && Enabled(s, CustomerStep(c, move))
    ensures InRange(s')
  {
    var customer := s.customers[c];
    s.(customers := s.customers[c := Moved(s, customer, c, move)], queue := MovedQueue(s, customer, c, move))
  }

  function Next(s: System, e: Event): (s': System)
    requires InRange(s) && Enabled(s, e)
    ensures InRange(s')
  {
    match e
    case ShopStep => ShopNext(s)
    case MgrBegin(op) => s.(mgr := WantLock(op))
    case MgrStep => MgrNext(s)
    case NotifierStep => NotifierNext(s)
    case CustomerStep(c, move) => CustomerNext(s, c, move)
  }

  // ---- What each step does to the queue -----------------------------------------------------------

  function ShopTraffic(s: System): Traffic
    requires InRange(s)
  {
    match s.shop
    case Polling => if First(s.queue, MSG_ORDER) < |s.queue| then Taken(MSG_ORDER) else Still
    case Alerting(_, i, left) =>
      var alerts := AlertsFor(s.rows[i], left);
      if |alerts| == 1 && HasRoom(s.queue, AlertMsg(alerts[0]), s.qbytes) then Sent(AlertMsg(alerts[0])) else Still
    case Replying(o) => Sent(ResponseMsg(o))
    case _ => Still
  }

  function NotifierTraffic(s: System): Traffic {
    var t := if s.notifier.PollLow? then MSG_NOTIFY_LOW_STOCK else MSG_NOTIFY_OUT_OF_STOCK;
    if First(s.queue, t) < |s.queue| then Taken(t) else Still
  }

  function CustomerTraffic(s: System, c: Customer, pid: nat, move: Move): Traffic
    requires CustomerInRange(|s.rows|, c) && MoveEnabled(s, c, pid, move)
  {
    if move.SendOrder? then Sent(OrderMsg(OrderFor(c, pid)))
    else if move.TakeResponse? then Taken(MSG_RESPONSE)
    else Still
  }

  function TrafficOf(s: System, e: Event): (traffic: Traffic)
    requires InRange(s) && Enabled(s, e)
    ensures Possible(s.queue, traffic)
  {
    match e
    case ShopStep => ShopTraffic(s)
    case NotifierStep => NotifierTraffic(s)
    case CustomerStep(c, move) => CustomerTraffic(s, s.customers[c], c, move)
    case _ => Still
  }

  /** The queue after a step is the queue before it and the step's traffic; sends that must wait for room
      are only enabled when there is room, and alerts are sent only then. */
  lemma QueueAfter(s: System, e: Event)
    requires InRange(s) && Enabled(s, e)
    ensures Next(s, e).queue == After(s.queue, TrafficOf(s, e))
    ensures Next(s, e).qbytes == s.qbytes
    ensures TrafficOf(s, e).Sent? ==> HasRoom(s.queue, TrafficOf(s, e).msg, s.qbytes)
  {
  }

  /** Only customers send orders, and only the shop takes them. */
  lemma OrderTraffic(s: System, e: Event)
    requires InRange(s) && Enabled(s, e)
    ensures var tr := TrafficOf(s, e);
            && (tr.Sent? && Type(tr.msg) == MSG_ORDER <==> e.CustomerStep? && e.move.SendOrder?)
            && (tr.Taken? && tr.kind == MSG_ORDER <==>
                  e.ShopStep? && s.shop.Polling? && First(s.queue, MSG_ORDER) < |s.queue|)
  {
  }

  /** Only the shop sends responses, and only customers take them. */
  lemma ResponseTraffic(s: System, e: Event)
    requires InRange(s) && Enabled(s, e)
    ensures var tr := TrafficOf(s, e);
            && (tr.Sent? && Type(tr.msg) == MSG_RESPONSE <==> e.ShopStep? && s.shop.Replying?)
            && (tr.Sent? && Type(tr.msg) == MSG_RESPONSE ==> tr.msg == ResponseMsg(s.shop.order))
            && (tr.Taken? && tr.kind == MSG_RESPONSE <==> e.CustomerStep? && e.move.TakeResponse?)
  {
  }

  // ---- History ----------------------------------------------------------------------------------

  function RecordShop(s: System, h: History): History
    requires InRange(s) && Enabled(s, ShopStep)
  {
    match s.shop
    case Locking(o) => h.(ops := h.ops + [OrderOp(o)])
    case Alerting(_, i, left) =>
      var alerts := AlertsFor(s.rows[i], left);
      if alerts == [] then h
      else h.(attempts := h.attempts + [Attempt(alerts[0], HasRoom(s.queue, AlertMsg(alerts[0]), s.qbytes))])
    case Replying(o) => h.(replies := h.replies + [o])
    case _ => h
  }

  function RecordMgr(s: System, h: History): History
    requires InRange(s) && Enabled(s, MgrStep)
  {
    match s.mgr
    case WantLock(op) => h.(ops := h.ops + [op])
    case Releasing(op, rows) =>
      if op.ShowOp? && h.ops != [] then h.(shown := h.shown + [View(|h.ops| - 1, rows)]) else h
    case _ => h
  }

  function RecordNotifier(s: System, h: History): History {
    var t := if s.notifier.PollLow? then MSG_NOTIFY_LOW_STOCK else MSG_NOTIFY_OUT_OF_STOCK;
    var i := First(s.queue, t);
    if i < |s.queue| then h.(taken := h.taken + [s.queue[i].alert]) else h
  }

  function Record(s: System, h: History, e: Event): History
    requires InRange(s) && Enabled(s, e)
  {
    match e
    case ShopStep => RecordShop(s, h)
    case MgrStep => RecordMgr(s, h)
    case NotifierStep => RecordNotifier(s, h)
    case MgrBegin(_) => h
    case CustomerStep(_, move) => if move.BeginCheckout? then h.(start := |h.replies|) else h
  }

  // ---- Runs -------------------------------------------------------------------------------------

  predicate Can(w: World, e: Event) {
    InRange(w.sys) && Enabled(w.sys, e)
  }

  function Step(w: World, e: Event): World
    requires Can(w, e)
  {
    World(Next(w.sys, e), Record(w.sys, w.hist, e))
  }

  predicate Allowed(w: World, es: seq<Event>)
    decreases |es|
  {
    es == [] || (Can(w, es[0]) && Allowed(Step(w, es[0]), es[1..]))
  }

  /** The world after a run: an interleaving chosen by whoever schedules the processes. */
  function Execute(w: World, es: seq<Event>): World
    requires Allowed(w, es)
    decreases |es|
  {
    if es == [] then w else Execute(Step(w, es[0]), es[1..])
  }

  /** After load_inventory: semaphore at 1, empty queue, everyone at the top of their loop. */
  predicate Init(w: World) {
    var s := w.sys;
    && |s.rows| <= MAX_ITEMS
    && (forall k :: 0 <= k < |s.rows| ==> s.rows[k].quantity >= 0)
    && s.sem == 1
    && s.queue == []
    && s.shop == Polling
    && s.mgr == AtMenu
    && s.notifier == PollLow
    && (forall c :: 0 <= c < |s.customers| ==> s.customers[c] == Customer(EMPTY_CART, Browsing))
    && w.hist == History([], [], [], [], [], 0)
  }
}
