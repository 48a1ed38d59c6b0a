/** Request/response accounting, and exactly when a waiting customer can still be served. */
module ShopProgress {
  import opened ShopSpec
  import opened MessageQueue
  import opened ShopSystem
  import Refine = ShopRefinement

  function CountWaiting(cs: seq<Customer>): nat {
    if cs == [] then 0 else (if cs[0].pc.Waiting? then 1 else 0) + CountWaiting(cs[1..])
  }

  lemma {:induction false} CountUpdate(cs: seq<Customer>, c: nat, to: Customer)
    requires c < |cs|
    ensures CountWaiting(cs[c := to])
         == CountWaiting(cs) - (if cs[c].pc.Waiting? then 1 else 0) + (if to.pc.Waiting? then 1 else 0)
  {
    if c == 0 {
      assert cs[c := to][1..] == cs[1..];
    } else {
      assert cs[c := to][1..] == cs[1..][c - 1 := to];
      CountUpdate(cs[1..], c - 1, to);
    }
  }

  lemma {:induction false} CountBound(cs: seq<Customer>)
    ensures CountWaiting(cs) <= |cs|
  {
    if cs != [] {
      CountBound(cs[1..]);
    }
  }

  function FirstWaiting(cs: seq<Customer>): (c: nat)
    requires CountWaiting(cs) > 0
    ensures c < |cs| && cs[c].pc.Waiting?
  {
    if cs[0].pc.Waiting? then 0 else 1 + FirstWaiting(cs[1..])
  }

  lemma {:induction false} CountNone(cs: seq<Customer>)
    requires forall c :: 0 <= c < |cs| ==> !cs[c].pc.Waiting?
    ensures CountWaiting(cs) == 0
  {
    if cs != [] {
      CountNone(cs[1..]);
    }
  }

  lemma {:induction false} CountPositive(cs: seq<Customer>, c: nat)
    requires c < |cs| && cs[c].pc.Waiting?
    ensures CountWaiting(cs) > 0
  {
    if c > 0 {
      CountPositive(cs[1..], c - 1);
    }
  }

  /** One customer is the only one waiting exactly when the count is one. */
  lemma OnlyOne(cs: seq<Customer>, o: nat)
    requires o < |cs| && cs[o].pc.Waiting?
    ensures CountWaiting(cs) >= 1
    ensures CountWaiting(cs) == 1 <==> forall c :: 0 <= c < |cs| && cs[c].pc.Waiting? ==> c == o
  {
    CountPositive(cs, o);
    var others := cs[o := cs[o].(pc := Browsing)];
    CountUpdate(cs, o, cs[o].(pc := Browsing));
    if CountWaiting(cs) == 1 {
      forall c | 0 <= c < |cs| && cs[c].pc.Waiting? ensures c == o {
        if c != o {
          CountPositive(others, c);
        }
      }
    } else {
      var c := FirstWaiting(others);
      assert cs[c].pc.Waiting? && c != o;
    }
  }

  // ---- Accounting -------------------------------------------------------------------------------

  function OrderCount(s: System): nat { |Select(s.queue, MSG_ORDER)| }

  function ResponseCount(s: System): nat { |Select(s.queue, MSG_RESPONSE)| }

  function AlertsQueued(s: System): nat {
    |Select(s.queue, MSG_NOTIFY_LOW_STOCK)| + |Select(s.queue, MSG_NOTIFY_OUT_OF_STOCK)|
  }

  predicate Busy(s: System) { !s.shop.Polling? }

  /** Each customer in msgrcv is owed exactly one response, and the queue keeps within its bound. */
  predicate CountInv(s: System) {
    && CountWaiting(s.customers) == OrderCount(s) + (if Busy(s) then 1 else 0) + ResponseCount(s)
    && Bytes(s.queue) <= s.qbytes
  }

  /** The queue's count of one type after some traffic. */
  lemma CountAfter(q: seq<Msg>, traffic: Traffic, t: int)
    requires Possible(q, traffic)
    ensures |Select(After(q, traffic), t)|
         == |Select(q, t)| + (if traffic.Sent? && Type(traffic.msg) == t then 1 else 0)
            - (if traffic.Taken? && traffic.kind == t then 1 else 0)
  {
    TrafficEffect(q, traffic, t);
  }

  lemma BusyStep(s: System, e: Event)
    requires InRange(s) && Enabled(s, e)
    ensures Busy(Next(s, e)) <==>
              if e.ShopStep? then (if Busy(s) then !s.shop.Replying? else OrderCount(s) > 0) else Busy(s)
  {
    SelectIsNonempty(s.queue, MSG_ORDER);
  }

  /** What one step does to the queue, by type. */
  lemma QueueStep(s: System, e: Event)
    requires InRange(s) && Enabled(s, e)
    ensures var s' := Next(s, e);
            var taken := e.ShopStep? && s.shop.Polling? && OrderCount(s) > 0;
            && OrderCount(s') == OrderCount(s) - (if taken then 1 else 0)
                             + (if e.CustomerStep? && e.move.SendOrder? then 1 else 0)
            && ResponseCount(s') == ResponseCount(s) + (if e.ShopStep? && s.shop.Replying? then 1 else 0)
                                - (if e.CustomerStep? && e.move.TakeResponse? then 1 else 0)
            && (Bytes(s.queue) <= s.qbytes ==> Bytes(s'.queue) <= s'.qbytes)
            && s'.qbytes == s.qbytes
  {
    QueueAfter(s, e);
    SelectIsNonempty(s.queue, MSG_ORDER);
    OrderTraffic(s, e);
    ResponseTraffic(s, e);
    CountAfter(s.queue, TrafficOf(s, e), MSG_ORDER);
    CountAfter(s.queue, TrafficOf(s, e), MSG_RESPONSE);
    TrafficBytes(s.queue, TrafficOf(s, e));
  }

  lemma WaitingStep(s: System, e: Event)
    requires InRange(s) && Enabled(s, e)
    ensures CountWaiting(Next(s, e).customers)
         == CountWaiting(s.customers) + (if e.CustomerStep? && e.move.SendOrder? then 1 else 0)
            - (if e.CustomerStep? && e.move.TakeResponse? then 1 else 0)
  {
    match e
    case CustomerStep(c, move) =>
      assert CustomerInRange(|s.rows|, s.customers[c]);
      CountUpdate(s.customers, c, Moved(s, s.customers[c], c, move));
    case ShopStep =>
    case MgrStep =>
    case NotifierStep =>
    case MgrBegin(_) =>
  }

  lemma CountStep(s: System, e: Event)
    requires InRange(s) && Enabled(s, e) && CountInv(s)
    ensures CountInv(Next(s, e))
  {
    QueueStep(s, e);
    BusyStep(s, e);
    WaitingStep(s, e);
  }

  // ---- The one way to get stuck -------------------------------------------------------------------

  /** The shop is committed to an order, and the queued orders leave no room for its response. Nobody
      but the shop takes orders off the queue, so the room never comes. */
  predicate Doomed(s: System) {
    Busy(s) && ORDER_SIZE * (OrderCount(s) + 1) > s.qbytes
  }

  lemma DoomedStep(s: System, e: Event)
    requires InRange(s) && Enabled(s, e) && CountInv(s) && Doomed(s)
    ensures Doomed(Next(s, e))
  {
    QueueStep(s, e);
    BusyStep(s, e);
    BytesByType(s.queue);
  }

  // ---- Serving whoever waits ------------------------------------------------------------------------

  /** Moves of the server side, and of customers picking up their responses. */
  predicate Service(e: Event) {
    e.ShopStep? || e.MgrStep? || e.NotifierStep? || (e.CustomerStep? && e.move.TakeResponse?)
  }

  /** The next move towards serving a waiting customer. */
  function ServiceMove(s: System): Event
    requires CountWaiting(s.customers) > 0
  {
    if ResponseCount(s) > 0 then CustomerStep(FirstWaiting(s.customers), TakeResponse)
    else if s.shop.Locking? && s.sem == 0 then MgrStep
    else if s.shop.Replying? && !HasRoom(s.queue, ResponseMsg(s.shop.order), s.qbytes) then NotifierStep
    else ShopStep
  }

  function OrderWork(s: System): nat { |s.rows| + 15 }

  function ShopWork(s: System): int {
    match s.shop
    case Polling => 0
    case Locking(_) => |s.rows| + 14
    case Scanning(_, i) => |s.rows| - i + 13
    case Comparing(_, _) => 12
    case Reading(_, _) => 11
    case Writing(_, _, _) => 10
    case Pricing(_, _, _) => 9
    case Alerting(_, _, _) => 8
    case Unlocking(_) => 3
    case Replying(_) => 2
  }

  function MgrWork(s: System): int {
    match s.mgr
    case AtMenu => 0
    case WantLock(_) => 0
    case Seeking(_, i) => |s.rows| - i + 4
    case Matched(_, _) => 3
    case Fetched(_, _, _) => 2
    case Showing(rows) => |s.rows| - |rows| + 2
    case Releasing(_, _) => 1
  }

  /** 1 when the notifier's next msgrcv will find nothing. */
  function NotifierWork(s: System): int {
    var t := if s.notifier.PollLow? then MSG_NOTIFY_LOW_STOCK else MSG_NOTIFY_OUT_OF_STOCK;
    if Select(s.queue, t) == [] then 1 else 0
  }

  function Work(s: System): int {
    OrderWork(s) * OrderCount(s) + ResponseCount(s) + 2 * AlertsQueued(s) + NotifierWork(s) + ShopWork(s) + MgrWork(s)
  }

  lemma ServiceMoveEnabled(s: System)
    requires InRange(s) && Refine.LockInv(s) && CountInv(s) && !Doomed(s) && CountWaiting(s.customers) > 0
    ensures Enabled(s, ServiceMove(s)) && Service(ServiceMove(s))
    ensures ServiceMove(s).NotifierStep? ==> AlertsQueued(s) > 0
    ensures ServiceMove(s).ShopStep? && s.shop.Polling? ==> OrderCount(s) > 0
    ensures ServiceMove(s).MgrStep? ==> Refine.MgrInside(s)
  {
    SelectIsNonempty(s.queue, MSG_RESPONSE);
    BytesByType(s.queue);
  }

  /** Traffic of orders and responses leaves both kinds of alert alone. */
  lemma AlertsFrame(q: seq<Msg>, traffic: Traffic)
    requires Possible(q, traffic)
    requires traffic.Sent? ==> !traffic.msg.AlertMsg?
    requires traffic.Taken? ==> traffic.kind == MSG_ORDER || traffic.kind == MSG_RESPONSE
    ensures Select(After(q, traffic), MSG_NOTIFY_LOW_STOCK) == Select(q, MSG_NOTIFY_LOW_STOCK)
    ensures Select(After(q, traffic), MSG_NOTIFY_OUT_OF_STOCK) == Select(q, MSG_NOTIFY_OUT_OF_STOCK)
  {
    TrafficEffect(q, traffic, MSG_NOTIFY_LOW_STOCK);
    TrafficEffect(q, traffic, MSG_NOTIFY_OUT_OF_STOCK);
  }

  lemma AlertsStep(s: System, e: Event)
    requires InRange(s) && Enabled(s, e) && !e.NotifierStep? && !(e.ShopStep? && s.shop.Alerting?)
    ensures AlertsQueued(Next(s, e)) == AlertsQueued(s) && NotifierWork(Next(s, e)) == NotifierWork(s)
  {
    QueueAfter(s, e);
    AlertsFrame(s.queue, TrafficOf(s, e));
    NotifierFrame(s, e);
  }

  lemma NotifierFrame(s: System, e: Event)
    requires InRange(s) && Enabled(s, e) && !e.NotifierStep?
    ensures Next(s, e).notifier == s.notifier
  {
  }

  lemma AlertingWork(s: System)
    requires InRange(s) && s.shop.Alerting?
    ensures AlertsQueued(ShopNext(s)) <= AlertsQueued(s) + 1
  {
    var alerts := AlertsFor(s.rows[s.shop.i], s.shop.left);
    if alerts != [] {
      SendEffect(s.queue, AlertMsg(alerts[0]));
    }
  }

  lemma NotifierWorkStep(s: System)
    requires InRange(s) && AlertsQueued(s) > 0
    ensures 2 * AlertsQueued(NotifierNext(s)) + NotifierWork(NotifierNext(s)) < 2 * AlertsQueued(s) + NotifierWork(s)
  {
    var t := if s.notifier.PollLow? then MSG_NOTIFY_LOW_STOCK else MSG_NOTIFY_OUT_OF_STOCK;
    SelectIsNonempty(s.queue, t);
    if First(s.queue, t) < |s.queue| {
      ReceiveEffect(s.queue, t);
    }
  }

  lemma ShopWorkStep(s: System)
    requires InRange(s) && Enabled(s, ShopStep)
    ensures var s' := ShopNext(s);
            && MgrWork(s') == MgrWork(s) && |s'.rows| == |s.rows|
            && ShopWork(s') <= ShopWork(s) - (match s.shop
                 case Polling => if OrderCount(s) > 0 then 1 - OrderWork(s) else 0
                 case Alerting(_, _, _) => 5
                 case Replying(_) => 2
                 case _ => 1)
  {
    SelectIsNonempty(s.queue, MSG_ORDER);
  }

  lemma MgrWorkStep(s: System)
    requires InRange(s) && Enabled(s, MgrStep) && Refine.MgrInside(s)
    ensures var s' := MgrNext(s);
            && MgrWork(s') < MgrWork(s) && ShopWork(s') == ShopWork(s) && |s'.rows| == |s.rows|
            && s'.queue == s.queue && s'.notifier == s.notifier
  {
  }

  lemma OrdersWork(work: nat, orders: nat)
    ensures work * orders >= 0
    ensures orders > 0 ==> work * (orders - 1) == work * orders - work
  {
  }

  lemma WorkIsNatural(s: System)
    requires InRange(s)
    ensures Work(s) >= 0
  {
    OrdersWork(OrderWork(s), OrderCount(s));
  }

  lemma ShopServes(s: System)
    requires InRange(s) && Enabled(s, ShopStep)
    requires s.shop.Polling? ==> OrderCount(s) > 0
    ensures Work(ShopNext(s)) < Work(s)
  {
    QueueStep(s, ShopStep);
    ShopWorkStep(s);
    OrdersWork(OrderWork(s), OrderCount(s));
    if s.shop.Alerting? {
      AlertingWork(s);
    } else {
      AlertsStep(s, ShopStep);
    }
  }

  lemma NotifierRest(s: System)
    ensures var s' := NotifierNext(s);
            s'.rows == s.rows && s'.shop == s.shop && s'.mgr == s.mgr
  {
  }

  lemma SameWork(s: System, s': System)
    requires s'.rows == s.rows && s'.shop == s.shop && s'.mgr == s.mgr
    ensures OrderWork(s') == OrderWork(s) && ShopWork(s') == ShopWork(s) && MgrWork(s') == MgrWork(s)
  {
  }

  lemma NotifierServes(s: System)
    requires InRange(s) && AlertsQueued(s) > 0
    ensures Work(NotifierNext(s)) < Work(s)
  {
    var s' := NotifierNext(s);
    assert OrderCount(s') == OrderCount(s) && ResponseCount(s') == ResponseCount(s) by {
      QueueStep(s, NotifierStep);
    }
    NotifierWorkStep(s);
    NotifierRest(s);
    SameWork(s, s');
  }

  lemma MgrServes(s: System)
    requires InRange(s) && Enabled(s, MgrStep) && Refine.MgrInside(s)
    ensures Work(MgrNext(s)) < Work(s)
  {
    MgrWorkStep(s);
  }

  lemma CustomerServes(s: System, c: nat)
    requires InRange(s) && Enabled(s, CustomerStep(c, TakeResponse))
    ensures Work(CustomerNext(s, c, TakeResponse)) < Work(s)
  {
    QueueStep(s, CustomerStep(c, TakeResponse));
    AlertsStep(s, CustomerStep(c, TakeResponse));
  }

  /** Each service move brings the waiting customers closer to being served. */
  lemma ServiceProgress(s: System)
    requires InRange(s) && Refine.LockInv(s) && CountInv(s) && !Doomed(s) && CountWaiting(s.customers) > 0
    ensures Enabled(s, ServiceMove(s))
    ensures Work(Next(s, ServiceMove(s))) < Work(s)
    ensures !Doomed(Next(s, ServiceMove(s)))
  {
    ServiceMoveEnabled(s);
    QueueStep(s, ServiceMove(s));
    BytesByType(s.queue);
    BusyStep(s, ServiceMove(s));
    match ServiceMove(s)
    case ShopStep => ShopServes(s);
    case MgrStep => MgrServes(s);
    case NotifierStep => NotifierServes(s);
    case CustomerStep(c, _) => CustomerServes(s, c);
  }

  // ---- Main results -----------------------------------------------------------------------------

  predicate ProgressInv(w: World) {
    InRange(w.sys) && Refine.LockInv(w.sys) && CountInv(w.sys)
  }

  lemma ProgressStep(w: World, e: Event)
    requires ProgressInv(w) && Can(w, e)
    ensures ProgressInv(Step(w, e))
  {
    Refine.LockStep(w.sys, e);
    CountStep(w.sys, e);
  }

  lemma {:induction false} ProgressRun(w: World, es: seq<Event>)
    requires ProgressInv(w) && Allowed(w, es)
    ensures ProgressInv(Execute(w, es))
    ensures Doomed(w.sys) ==> Doomed(Execute(w, es).sys)
    decreases |es|
  {
    if es != [] {
      ProgressStep(w, es[0]);
      if Doomed(w.sys) {
        DoomedStep(w.sys, es[0]);
      }
      ProgressRun(Step(w, es[0]), es[1..]);
    }
  }

  lemma InitProgress(w: World)
    requires Init(w)
    ensures ProgressInv(w)
  {
    CountNone(w.sys.customers);
  }

  /** A run of service moves that serves everyone who waits. */
  lemma {:induction false} Serve(w: World) returns (es: seq<Event>)
    requires ProgressInv(w) && !Doomed(w.sys)
    ensures Allowed(w, es) && (forall k :: 0 <= k < |es| ==> Service(es[k]))
    ensures CountWaiting(Execute(w, es).sys.customers) == 0
    decreases Work(w.sys)
  {
    if CountWaiting(w.sys.customers) == 0 {
      es := [];
    } else {
      WorkIsNatural(w.sys);
      ServiceProgress(w.sys);
      ServiceMoveEnabled(w.sys);
      var e := ServiceMove(w.sys);
      ProgressStep(w, e);
      WorkIsNatural(Step(w, e).sys);
      var rest := Serve(Step(w, e));
      es := [e] + rest;
      assert es[1..] == rest;
    }
  }

  /** Accounting: the customers in msgrcv are exactly matched by queued orders, the order in hand and
      queued responses; and whoever holds the semaphore can always take its next step, so nobody
      blocks on the queue while holding it. */
  lemma Accounting(w: World, es: seq<Event>)
    requires Init(w) && Allowed(w, es)
    ensures var s := Execute(w, es).sys;
            && InRange(s)
            && CountWaiting(s.customers) == OrderCount(s) + (if Busy(s) then 1 else 0) + ResponseCount(s)
            && Bytes(s.queue) <= s.qbytes
            && (Refine.ShopInside(s) ==> Enabled(s, ShopStep))
            && (Refine.MgrInside(s) ==> Enabled(s, MgrStep))
  {
    InitProgress(w);
    ProgressRun(w, es);
  }

  /** No stuck customer, exactly: from a reachable state everyone who waits can still be served, by
      moves of the server processes and customers picking up responses alone, if and only if the shop
      is not committed to an order whose response the queued orders leave no room for. */
  lemma NoStuckCustomer(w: World, es: seq<Event>)
    requires Init(w) && Allowed(w, es)
    ensures var v := Execute(w, es);
            && (!Doomed(v.sys) ==>
                  exists fs :: Allowed(v, fs) && (forall k :: 0 <= k < |fs| ==> Service(fs[k]))
                               && CountWaiting(Execute(v, fs).sys.customers) == 0)
            && (Doomed(v.sys) ==>
                  forall fs :: Allowed(v, fs) ==> CountWaiting(Execute(v, fs).sys.customers) > 0)
  {
    InitProgress(w);
    ProgressRun(w, es);
    var v := Execute(w, es);
    if Doomed(v.sys) {
      forall fs | Allowed(v, fs)
        ensures CountWaiting(Execute(v, fs).sys.customers) > 0
      {
        ProgressRun(v, fs);
      }
    } else {
      var fs := Serve(v);
    }
  }

  // ---- When the bad state is out of reach -----------------------------------------------------------

  /** Every cart is empty and stays so, as there is nothing to buy. */
  predicate CannotBuy(c: Customer) {
    c.cart.lines == [] && (c.pc.Browsing? || c.pc.AddScan?)
  }

  predicate NothingToBuy(s: System) {
    && s.rows == [] && s.queue == [] && s.shop.Polling?
    && forall c :: 0 <= c < |s.customers| ==> CannotBuy(s.customers[c])
  }

  lemma CannotBuyMove(s: System, c: Customer, pid: nat, move: Move)
    requires CustomerInRange(|s.rows|, c) && MoveEnabled(s, c, pid, move) && s.rows == [] && CannotBuy(c)
    ensures CannotBuy(Moved(s, c, pid, move)) && !move.SendOrder? && !move.TakeResponse?
  {
  }

  lemma NothingToBuyStep(s: System, e: Event)
    requires InRange(s) && Enabled(s, e) && NothingToBuy(s)
    ensures NothingToBuy(Next(s, e))
  {
    match e
    case CustomerStep(c, move) => CannotBuyMove(s, s.customers[c], c, move);
    case ShopStep =>
    case MgrStep =>
    case NotifierStep =>
    case MgrBegin(_) =>
  }

  lemma {:induction false} NothingToBuyRun(w: World, es: seq<Event>)
    requires NothingToBuy(w.sys) && Allowed(w, es)
    ensures NothingToBuy(Execute(w, es).sys)
    decreases |es|
  {
    if es != [] {
      NothingToBuyStep(w.sys, es[0]);
      NothingToBuyRun(Step(w, es[0]), es[1..]);
    }
  }

  /** No order fits the queue, so the shop never gets one. */
  lemma {:induction false} NoRoomRun(w: World, es: seq<Event>)
    requires ProgressInv(w) && w.sys.qbytes < ORDER_SIZE && !Busy(w.sys) && Allowed(w, es)
    ensures !Busy(Execute(w, es).sys)
    decreases |es|
  {
    if es != [] {
      BytesByType(w.sys.queue);
      QueueStep(w.sys, es[0]);
      BusyStep(w.sys, es[0]);
      ProgressStep(w, es[0]);
      NoRoomRun(Step(w, es[0]), es[1..]);
    }
  }

  /** With room for one order per customer, with room for none, or with nothing to buy, the bad state is never
      reached. Otherwise it can be: see FullQueue. */
  lemma EnoughRoom(w: World, es: seq<Event>)
    requires Init(w) && Allowed(w, es)
    requires ORDER_SIZE * |w.sys.customers| <= w.sys.qbytes || w.sys.qbytes < ORDER_SIZE || w.sys.rows == []
    ensures !Doomed(Execute(w, es).sys)
  {
    InitProgress(w);
    ProgressRun(w, es);
    if w.sys.rows == [] {
      NothingToBuyRun(w, es);
    } else if w.sys.qbytes < ORDER_SIZE {
      NoRoomRun(w, es);
    } else {
      SizesRun(w, es);
      CountBound(Execute(w, es).sys.customers);
    }
  }

  lemma {:induction false} SizesRun(w: World, es: seq<Event>)
    requires Allowed(w, es)
    ensures Execute(w, es).sys.qbytes == w.sys.qbytes
    ensures |Execute(w, es).sys.customers| == |w.sys.customers|
    decreases |es|
  {
    if es != [] {
      SizesRun(Step(w, es[0]), es[1..]);
    }
  }
}
