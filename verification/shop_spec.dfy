/** The shop's data and what each operation on the inventory means when nothing interleaves with it.

    The concurrent system (ShopSystem) is proved to behave as if these operations ran one at a time;
    the in-place methods of SharedInventory are proved to compute them. */
module ShopSpec {

  const MAX_ITEMS: nat := 100

  datatype Item = Item(name: string, quantity: int, price: real, lowThreshold: int)

  /** The `data` part of an order message; the shop overwrites `price` and `status` and sends it back. */
  datatype OrderData = OrderData(name: string, quantity: int, price: real, customer: nat, status: int)

  datatype AlertKind = LowStock | OutOfStock

  datatype Alert = Alert(kind: AlertKind, name: string, quantity: int, threshold: int)

  function Cost(quantity: int, price: real): real {
    price * quantity as real
  }

  /** The first row with the given name, or `|rows|` when there is none: what every search loop finds. */
  function Lookup(rows: seq<Item>, name: string): (i: nat)
    ensures i <= |rows|
    ensures forall k :: 0 <= k < i ==> rows[k].name != name
    ensures i < |rows| ==> rows[i].name == name
  {
    if rows == [] || rows[0].name == name then 0 else 1 + Lookup(rows[1..], name)
  }

  /** Two inventories whose rows carry the same names, in the same order. */
  ghost predicate SameNames(a: seq<Item>, b: seq<Item>) {
    |a| == |b| && forall k :: 0 <= k < |a| ==> a[k].name == b[k].name
  }

  lemma LookupDependsOnNames(a: seq<Item>, b: seq<Item>, name: string)
    requires SameNames(a, b)
    ensures Lookup(a, name) == Lookup(b, name)
  {
    var i, j := Lookup(a, name), Lookup(b, name);
    assert i < |a| ==> b[i].name == name;
    assert j < |b| ==> a[j].name == name;
  }

  // ---- Orders -------------------------------------------------------------------------------

  /** The alert an accepted order raises when it leaves `left` units in the row, if any. */
  function AlertsFor(item: Item, left: int): seq<Alert> {
    if left == 0 then [Alert(OutOfStock, item.name, left, item.lowThreshold)]
    else if left <= item.lowThreshold then [Alert(LowStock, item.name, left, item.lowThreshold)]
    else []
  }

  datatype Outcome = Outcome(rows: seq<Item>, reply: OrderData, alerts: seq<Alert>)

  predicate InStock(rows: seq<Item>, o: OrderData) {
    var i := Lookup(rows, o.name);
    i < |rows| && rows[i].quantity >= o.quantity
  }

  function Fill(rows: seq<Item>, o: OrderData): Outcome
    requires InStock(rows, o)
  {
    var i := Lookup(rows, o.name);
    var left := rows[i].quantity - o.quantity;
    Outcome(
      rows[i := rows[i].(quantity := left)],
      o.(status := 1, price := Cost(o.quantity, rows[i].price)),
      AlertsFor(rows[i], left))
  }

  function ApplyOrder(rows: seq<Item>, o: OrderData): Outcome {
    if InStock(rows, o) then Fill(rows, o) else Outcome(rows, o.(status := 0), [])
  }

  // ---- The manager's operations ---------------------------------------------------------------

  function ApplyRestock(rows: seq<Item>, name: string, quantity: int): seq<Item> {
    var i := Lookup(rows, name);
    if i < |rows| then rows[i := rows[i].(quantity := rows[i].quantity + quantity)] else rows
  }

  function ApplyPrice(rows: seq<Item>, name: string, price: real): seq<Item> {
    var i := Lookup(rows, name);
    if i < |rows| then rows[i := rows[i].(price := price)] else rows
  }

  // ---- Whole histories ------------------------------------------------------------------------

  /** An operation that runs under the lock. */
  datatype Op =
    | OrderOp(order: OrderData)
    | RestockOp(name: string, quantity: int)
    | PriceOp(name: string, price: real)
    | ShowOp

  function Apply(rows: seq<Item>, op: Op): seq<Item> {
    match op
    case OrderOp(o) => ApplyOrder(rows, o).rows
    case RestockOp(name, quantity) => ApplyRestock(rows, name, quantity)
    case PriceOp(name, price) => ApplyPrice(rows, name, price)
    case ShowOp => rows
  }

  /** The inventory after running `ops` one at a time, in order. */
  function Replay(loaded: seq<Item>, ops: seq<Op>): seq<Item> {
    if ops == [] then loaded else Apply(Replay(loaded, ops[..|ops| - 1]), ops[|ops| - 1])
  }

  function ReplyOf(rows: seq<Item>, op: Op): seq<OrderData> {
    if op.OrderOp? then [ApplyOrder(rows, op.order).reply] else []
  }

  /** The replies the orders among `ops` get when the operations run one at a time. */
  function Replies(loaded: seq<Item>, ops: seq<Op>): seq<OrderData> {
    if ops == [] then []
    else
      var init := ops[..|ops| - 1];
      Replies(loaded, init) + ReplyOf(Replay(loaded, init), ops[|ops| - 1])
  }

  function AlertsOf(rows: seq<Item>, op: Op): seq<Alert> {
    if op.OrderOp? then ApplyOrder(rows, op.order).alerts else []
  }

  /** The alerts raised when the operations run one at a time. */
  function Alerts(loaded: seq<Item>, ops: seq<Op>): seq<Alert> {
    if ops == [] then []
    else
      var init := ops[..|ops| - 1];
      Alerts(loaded, init) + AlertsOf(Replay(loaded, init), ops[|ops| - 1])
  }

  /** Running one more operation extends each of the three histories at its end. */
  lemma ReplaySnoc(loaded: seq<Item>, ops: seq<Op>, op: Op)
    ensures Replay(loaded, ops + [op]) == Apply(Replay(loaded, ops), op)
    ensures Replies(loaded, ops + [op]) == Replies(loaded, ops) + ReplyOf(Replay(loaded, ops), op)
    ensures Alerts(loaded, ops + [op]) == Alerts(loaded, ops) + AlertsOf(Replay(loaded, ops), op)
  {
    assert (ops + [op])[..|ops|] == ops;
  }

  lemma ApplyKeepsNames(rows: seq<Item>, op: Op)
    ensures SameNames(rows, Apply(rows, op))
    ensures forall k :: 0 <= k < |rows| ==> rows[k].lowThreshold == Apply(rows, op)[k].lowThreshold
  {
  }

  lemma {:induction false} ReplayKeepsNames(loaded: seq<Item>, ops: seq<Op>)
    ensures SameNames(loaded, Replay(loaded, ops))
    ensures forall k :: 0 <= k < |loaded| ==> loaded[k].lowThreshold == Replay(loaded, ops)[k].lowThreshold
  {
    if ops != [] {
      ReplayKeepsNames(loaded, ops[..|ops| - 1]);
      ApplyKeepsNames(Replay(loaded, ops[..|ops| - 1]), ops[|ops| - 1]);
    }
  }

  /** When an order raises an alert, and which one: never for a rejected order, out-of-stock exactly
      when nothing is left, low-stock exactly when something is left but no more than the threshold. */
  lemma AlertMeaning(rows: seq<Item>, o: OrderData)
    ensures var out := ApplyOrder(rows, o);
            var i := Lookup(rows, o.name);
            && |out.alerts| <= 1
            && (out.reply.status == 1 <==> i < |rows| && rows[i].quantity >= o.quantity)
            && (out.alerts != [] <==>
                out.reply.status == 1 && (out.rows[i].quantity == 0 || out.rows[i].quantity <= rows[i].lowThreshold))
            && (forall a :: a in out.alerts ==>
                && a.name == o.name && a.quantity == out.rows[i].quantity && a.threshold == rows[i].lowThreshold
                && (a.kind == OutOfStock <==> out.rows[i].quantity == 0)
                && (a.kind == LowStock <==> 0 != out.rows[i].quantity <= rows[i].lowThreshold))
  {
  }

  /** What the customer gets back: its own order with the verdict, and the row's price times the quantity when
      accepted. */
  lemma ReplyMeaning(rows: seq<Item>, o: OrderData)
    ensures var r := ApplyOrder(rows, o).reply;
            && r.name == o.name && r.quantity == o.quantity && r.customer == o.customer
            && (r.status == 0 || r.status == 1)
            && r.price == if r.status == 1 then rows[Lookup(rows, o.name)].price * o.quantity as real else o.price
  {
  }

  /** What an accepted order for `quantity` units of row `i` is charged. */
  function Charge(rows: seq<Item>, i: nat, quantity: int): real
    requires i < |rows|
  {
    ApplyOrder(rows, OrderData(rows[i].name, quantity, 0.0, 0, 0)).reply.price
  }

  lemma {:induction false} ChargeIs(rows: seq<Item>, i: nat, quantity: nat)
    requires i < |rows| && i == Lookup(rows, rows[i].name) && quantity <= rows[i].quantity
    ensures Charge(rows, i, quantity) == rows[i].price * quantity as real
  {
    ReplyMeaning(rows, OrderData(rows[i].name, quantity, 0.0, 0, 0));
  }

  /** One unit costs the row's price, none costs nothing, and two orders together cost what they cost apart. */
  lemma {:induction false} ChargeLaws(rows: seq<Item>, i: nat, a: nat, b: nat)
    requires i < |rows| && i == Lookup(rows, rows[i].name) && a + b <= rows[i].quantity
    ensures Charge(rows, i, 0) == 0.0
    ensures rows[i].quantity >= 1 ==> Charge(rows, i, 1) == rows[i].price
    ensures Charge(rows, i, a + b) == Charge(rows, i, a) + Charge(rows, i, b)
  {
    ChargeIs(rows, i, 0);
    if rows[i].quantity >= 1 {
      ChargeIs(rows, i, 1);
    }
    ChargeIs(rows, i, a);
    ChargeIs(rows, i, b);
    ChargeIs(rows, i, a + b);
    Distribute(rows[i].price, a as real, b as real);
    assert (a + b) as real == a as real + b as real;
  }

  lemma Distribute(price: real, a: real, b: real)
    ensures price * (a + b) == price * a + price * b
  {
  }

  /** An operation touches one field of one row, the first of its name: an accepted order takes its quantity
      off, a restock adds its own, a price update stores its price. Every other row and field stays. */
  lemma OperationEffect(rows: seq<Item>, op: Op, k: nat)
    requires k < |rows|
    ensures |Apply(rows, op)| == |rows|
    ensures var item, item' := rows[k], Apply(rows, op)[k];
            && item'.name == item.name && item'.lowThreshold == item.lowThreshold
            && item'.quantity
               == item.quantity
                  - (if op.OrderOp? && k == Lookup(rows, op.order.name) && item.quantity >= op.order.quantity
                     then op.order.quantity else 0)
                  + (if op.RestockOp? && k == Lookup(rows, op.name) then op.quantity else 0)
            && item'.price == if op.PriceOp? && k == Lookup(rows, op.name) then op.price else item.price
  {
  }
}
