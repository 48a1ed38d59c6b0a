/** Who gets whose response. Responses carry the customer they are meant for, but msgrcv asks for any of
    them: delivery is right as long as only one customer waits when a response is there to be taken. */
module ShopDelivery {
  import opened ShopSpec
  import opened MessageQueue
  import opened ShopSystem
  import opened ShopProgress
  import Checkout = ShopCheckout

  // ---- Right delivery -------------------------------------------------------------------------------

  /** A customer that takes a response takes the one to its own order for the line it has just sent. */
  predicate TakesOwn(s: System, e: Event)
    requires InRange(s) && Enabled(s, e)
  {
    e.CustomerStep? && e.move.TakeResponse? ==>
      var c := s.customers[e.c];
      assert CustomerInRange(|s.rows|, c);
      Checkout.Own(s.queue[First(s.queue, MSG_RESPONSE)].order, e.c, c.cart.lines[c.pc.k])
  }

  /** Every response taken in the run is taken by the customer it is meant for. */
  predicate AllOwn(w: World, es: seq<Event>)
    requires Allowed(w, es)
    decreases |es|
  {
    es == [] || (TakesOwn(w.sys, es[0]) && AllOwn(Step(w, es[0]), es[1..]))
  }

  // ---- Each request on its way belongs to a customer of its own ------------------------------------------

  /** The customer an order or response names waits for it. */
  predicate Awaited(customers: seq<Customer>, o: OrderData) {
    && o.customer < |customers|
    && var c := customers[o.customer];
    && c.pc.Waiting? && c.pc.k < |c.cart.lines|
    && Checkout.Own(o, o.customer, c.cart.lines[c.pc.k])
  }

  predicate AwaitedMsg(customers: seq<Customer>, m: Msg) {
    m.AlertMsg? || Awaited(customers, m.order)
  }

  ghost predicate AllAwaited(customers: seq<Customer>, q: seq<Msg>) {
    forall k :: 0 <= k < |q| ==> AwaitedMsg(customers, q[k])
  }

  /** Not for the given customer. */
  predicate ForOther(m: Msg, c: nat) {
    m.AlertMsg? || m.order.customer != c
  }

  ghost predicate NoneFor(q: seq<Msg>, c: nat) {
    forall k :: 0 <= k < |q| ==> ForOther(q[k], c)
  }

  /** No two orders or responses in the queue are for the same customer. */
  ghost predicate Apart(q: seq<Msg>) {
    forall i, j :: 0 <= i < j < |q| && !q[i].AlertMsg? ==> ForOther(q[j], q[i].order.customer)
  }

  ghost predicate OwnerInv(s: System) {
    && AllAwaited(s.customers, s.queue)
    && Apart(s.queue)
    && (!s.shop.Polling? ==> Awaited(s.customers, s.shop.order) && NoneFor(s.queue, s.shop.order.customer))
  }

  lemma AppendKeeps(customers: seq<Customer>, q: seq<Msg>, m: Msg)
    requires AllAwaited(customers, q) && Apart(q) && AwaitedMsg(customers, m)
    requires m.AlertMsg? || NoneFor(q, m.order.customer)
    ensures AllAwaited(customers, q + [m]) && Apart(q + [m])
    ensures forall c :: NoneFor(q, c) && ForOther(m, c) ==> NoneFor(q + [m], c)
  {
    forall i, j | 0 <= i < j < |q + [m]| && !(q + [m])[i].AlertMsg?
      ensures ForOther((q + [m])[j], (q + [m])[i].order.customer)
    {
      if j == |q| && !m.AlertMsg? {
        assert ForOther(q[i], m.order.customer);
      }
    }
  }

  lemma RemoveKeeps(customers: seq<Customer>, q: seq<Msg>, i: nat)
    requires i < |q| && AllAwaited(customers, q) && Apart(q)
    ensures AllAwaited(customers, Remove(q, i)) && Apart(Remove(q, i))
    ensures forall c :: NoneFor(q, c) ==> NoneFor(Remove(q, i), c)
    ensures !q[i].AlertMsg? ==> NoneFor(Remove(q, i), q[i].order.customer)
  {
    var rest := Remove(q, i);
    assert forall k :: 0 <= k < |rest| ==> rest[k] == q[if k < i then k else k + 1];
    if !q[i].AlertMsg? {
      forall k | 0 <= k < |rest| ensures ForOther(rest[k], q[i].order.customer) {
        if k < i && !q[k].AlertMsg? {
          assert ForOther(q[i], q[k].order.customer);
        }
      }
    }
  }

  /** A move of a customer for whom nothing is on its way. */
  lemma CustomerFrame(customers: seq<Customer>, c: nat, to: Customer, q: seq<Msg>)
    requires c < |customers| && AllAwaited(customers, q) && NoneFor(q, c)
    ensures AllAwaited(customers[c := to], q)
  {
    forall k | 0 <= k < |q| ensures AwaitedMsg(customers[c := to], q[k]) {
      assert AwaitedMsg(customers, q[k]) && ForOther(q[k], c);
    }
  }

  /** Nothing is on its way for a customer that does not wait. */
  lemma NotAwaited(customers: seq<Customer>, q: seq<Msg>, c: nat)
    requires c < |customers| && !customers[c].pc.Waiting? && AllAwaited(customers, q)
    ensures NoneFor(q, c)
  {
    forall k | 0 <= k < |q| ensures ForOther(q[k], c) {
      assert AwaitedMsg(customers, q[k]);
    }
  }

  // ---- Steps ------------------------------------------------------------------------------------------

  /** The shop takes an order, answers it, or works on it; alerts concern nobody. */
  lemma ShopOwner(s: System)
    requires InRange(s) && Enabled(s, ShopStep) && OwnerInv(s)
    ensures OwnerInv(ShopNext(s))
  {
    QueueAfter(s, ShopStep);
    Checkout.Elsewhere(s, ShopStep);
    match s.shop {
      case Polling =>
        Checkout.ShopTakes(s);
        if First(s.queue, MSG_ORDER) < |s.queue| {
          RemoveKeeps(s.customers, s.queue, First(s.queue, MSG_ORDER));
        }
      case Replying(o) =>
        AppendKeeps(s.customers, s.queue, ResponseMsg(o));
      case Alerting(_, _, _) =>
        Checkout.ShopWorks(s);
        if TrafficOf(s, ShopStep).Sent? {
          AppendKeeps(s.customers, s.queue, TrafficOf(s, ShopStep).msg);
        }
      case _ =>
        Checkout.ShopWorks(s);
    }
  }

  lemma NotifierOwner(s: System)
    requires InRange(s) && OwnerInv(s)
    ensures OwnerInv(NotifierNext(s))
  {
    QueueAfter(s, NotifierStep);
    Checkout.Elsewhere(s, NotifierStep);
    var traffic := TrafficOf(s, NotifierStep);
    if traffic.Taken? {
      RemoveKeeps(s.customers, s.queue, First(s.queue, traffic.kind));
    }
  }

  /** The order a customer sends is awaited by it. */
  lemma SendOwner(s: System, c: nat)
    requires InRange(s) && Enabled(s, CustomerStep(c, SendOrder)) && OwnerInv(s)
    ensures OwnerInv(CustomerNext(s, c, SendOrder))
  {
    var customer := s.customers[c];
    var to := Moved(s, customer, c, SendOrder);
    NotAwaited(s.customers, s.queue, c);
    CustomerFrame(s.customers, c, to, s.queue);
    AppendKeeps(s.customers[c := to], s.queue, OrderMsg(OrderFor(customer, c)));
  }

  lemma TakeOwner(s: System, c: nat)
    requires InRange(s) && Enabled(s, CustomerStep(c, TakeResponse)) && OwnerInv(s)
    requires TakesOwn(s, CustomerStep(c, TakeResponse))
    ensures OwnerInv(CustomerNext(s, c, TakeResponse))
  {
    var i := First(s.queue, MSG_RESPONSE);
    RemoveKeeps(s.customers, s.queue, i);
    CustomerFrame(s.customers, c, Moved(s, s.customers[c], c, TakeResponse), Remove(s.queue, i));
    if !s.shop.Polling? {
      assert ForOther(s.queue[i], s.shop.order.customer);
    }
  }

  lemma OtherOwner(s: System, c: nat, move: Move)
    requires InRange(s) && Enabled(s, CustomerStep(c, move)) && OwnerInv(s)
    requires !move.SendOrder? && !move.TakeResponse?
    ensures OwnerInv(CustomerNext(s, c, move))
  {
    NotAwaited(s.customers, s.queue, c);
    CustomerFrame(s.customers, c, Moved(s, s.customers[c], c, move), s.queue);
  }

  lemma OwnerStep(s: System, e: Event)
    requires InRange(s) && Enabled(s, e) && OwnerInv(s) && TakesOwn(s, e)
    ensures OwnerInv(Next(s, e))
  {
    match e
    case ShopStep => ShopOwner(s);
    case NotifierStep => NotifierOwner(s);
    case CustomerStep(c, move) =>
      if move.SendOrder? {
        SendOwner(s, c);
      } else if move.TakeResponse? {
        TakeOwner(s, c);
      } else {
        OtherOwner(s, c, move);
      }
    case MgrBegin(_) =>
    case MgrStep =>
      QueueAfter(s, e);
      Checkout.Elsewhere(s, e);
  }

  lemma {:induction false} OwnerRun(w: World, es: seq<Event>)
    requires OwnerInv(w.sys) && Allowed(w, es) && AllOwn(w, es)
    ensures OwnerInv(Execute(w, es).sys)
    decreases |es|
  {
    if es != [] {
      OwnerStep(w.sys, es[0]);
      OwnerRun(Step(w, es[0]), es[1..]);
    }
  }

  // ---- Exact delivery, state by state ---------------------------------------------------------------------

  predicate ResponseQueued(s: System) { First(s.queue, MSG_RESPONSE) < |s.queue| }

  /** Whoever takes a response now takes its own. */
  ghost predicate NextIsOwn(s: System)
    requires InRange(s)
  {
    forall c: nat :: Enabled(s, CustomerStep(c, TakeResponse)) ==> TakesOwn(s, CustomerStep(c, TakeResponse))
  }

  lemma OwnerDecides(s: System)
    requires InRange(s) && OwnerInv(s) && ResponseQueued(s)
    ensures NextIsOwn(s) <==> CountWaiting(s.customers) == 1
  {
    var m := s.queue[First(s.queue, MSG_RESPONSE)];
    assert AwaitedMsg(s.customers, m);
    OnlyOne(s.customers, m.order.customer);
    forall c: nat | Enabled(s, CustomerStep(c, TakeResponse))
      ensures TakesOwn(s, CustomerStep(c, TakeResponse)) <==> c == m.order.customer
    {
      assert CustomerInRange(|s.rows|, s.customers[c]);
    }
    if NextIsOwn(s) {
      forall c | 0 <= c < |s.customers| && s.customers[c].pc.Waiting? ensures c == m.order.customer {
        assert Enabled(s, CustomerStep(c, TakeResponse));
      }
    }
  }

  /** Exact delivery. In every state reached without a wrong delivery, with a response to take: whoever
      takes it takes its own if and only if one customer waits. */
  lemma ExactDelivery(w: World, es: seq<Event>)
    requires Init(w) && Allowed(w, es) && AllOwn(w, es)
    requires ResponseQueued(Execute(w, es).sys)
    ensures InRange(Execute(w, es).sys)
    ensures NextIsOwn(Execute(w, es).sys) <==> CountWaiting(Execute(w, es).sys.customers) == 1
  {
    InitProgress(w);
    ProgressRun(w, es);
    OwnerRun(w, es);
    OwnerDecides(Execute(w, es).sys);
  }

  // ---- Starts from which no run delivers wrongly ----------------------------------------------------------

  /** One customer, nothing to buy, or no room for a response beside an order. */
  predicate Safe(w: World) {
    |w.sys.customers| <= 1 || w.sys.rows == [] || w.sys.qbytes < 2 * ORDER_SIZE
  }

  /** What keeps a second customer from waiting while a response is queued. */
  predicate SafeInv(s: System) {
    || |s.customers| <= 1
    || NothingToBuy(s)
    || (s.qbytes < 2 * ORDER_SIZE && (Busy(s) ==> ResponseCount(s) == 0))
  }

  lemma SafeStep(s: System, e: Event)
    requires InRange(s) && Enabled(s, e) && CountInv(s) && SafeInv(s)
    ensures SafeInv(Next(s, e))
  {
    if NothingToBuy(s) {
      NothingToBuyStep(s, e);
    } else if |s.customers| > 1 {
      QueueStep(s, e);
      BusyStep(s, e);
      BytesByType(s.queue);
    }
  }

  lemma OneWaits(s: System)
    requires CountInv(s) && SafeInv(s) && ResponseQueued(s)
    ensures CountWaiting(s.customers) <= 1
  {
    CountBound(s.customers);
    SelectIsNonempty(s.queue, MSG_RESPONSE);
    BytesByType(s.queue);
  }

  lemma SafeTakes(s: System, e: Event)
    requires InRange(s) && Enabled(s, e) && OwnerInv(s) && CountInv(s) && SafeInv(s)
    ensures TakesOwn(s, e)
  {
    if e.CustomerStep? && e.move.TakeResponse? {
      OneWaits(s);
      CountPositive(s.customers, e.c);
      OwnerDecides(s);
    }
  }

  lemma {:induction false} SafeRun(w: World, es: seq<Event>)
    requires ProgressInv(w) && OwnerInv(w.sys) && SafeInv(w.sys) && Allowed(w, es)
    ensures AllOwn(w, es)
    decreases |es|
  {
    if es != [] {
      SafeTakes(w.sys, es[0]);
      SafeStep(w.sys, es[0]);
      OwnerStep(w.sys, es[0]);
      ProgressStep(w, es[0]);
      SafeRun(Step(w, es[0]), es[1..]);
    }
  }

  lemma SafeStart(w: World, es: seq<Event>)
    requires Init(w) && Safe(w) && Allowed(w, es)
    ensures AllOwn(w, es)
  {
    InitProgress(w);
    SafeRun(w, es);
  }

  /** A run all of whose deliveries are right has a right last step. */
  lemma {:induction false} LastIsOwn(w: World, es: seq<Event>, e: Event)
    requires Allowed(w, es) && Can(Execute(w, es), e)
    ensures Allowed(w, es + [e])
    ensures AllOwn(w, es + [e]) ==> TakesOwn(Execute(w, es).sys, e)
    decreases |es|
  {
    if es == [] {
      assert [e][1..] == [];
    } else {
      assert (es + [e])[1..] == es[1..] + [e];
      LastIsOwn(Step(w, es[0]), es[1..], e);
    }
  }
}
