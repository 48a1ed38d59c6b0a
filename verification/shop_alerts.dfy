/** Stock alerts: none is lost once the queue has accepted it, and each type arrives in order. */
module ShopAlerts {
  import opened ShopSpec
  import opened MessageQueue
  import opened ShopSystem
  import opened ShopRefinement

  function TypeOf(kind: AlertKind): int {
    if kind == LowStock then MSG_NOTIFY_LOW_STOCK else MSG_NOTIFY_OUT_OF_STOCK
  }

  /** The alerts of one kind, as the messages that carry them. */
  function Messages(alerts: seq<Alert>, kind: AlertKind): seq<Msg> {
    if alerts == [] then []
    else
      var last := alerts[|alerts| - 1];
      Messages(alerts[..|alerts| - 1], kind) + if last.kind == kind then [AlertMsg(last)] else []
  }

  /** The attempts of one kind that the queue accepted. */
  function Undropped(attempts: seq<Attempt>, kind: AlertKind): seq<Msg> {
    if attempts == [] then []
    else
      var last := attempts[|attempts| - 1];
      Undropped(attempts[..|attempts| - 1], kind)
      + if last.sent && last.alert.kind == kind then [AlertMsg(last.alert)] else []
  }

  /** Alerts received, followed by alerts still queued, are the alerts sent. */
  predicate Accounted(taken: seq<Alert>, q: seq<Msg>, attempts: seq<Attempt>, kind: AlertKind) {
    Messages(taken, kind) + Select(q, TypeOf(kind)) == Undropped(attempts, kind)
  }

  predicate AlertInv(w: World) {
    && Accounted(w.hist.taken, w.sys.queue, w.hist.attempts, LowStock)
    && Accounted(w.hist.taken, w.sys.queue, w.hist.attempts, OutOfStock)
  }

  lemma MessagesSnoc(alerts: seq<Alert>, a: Alert, kind: AlertKind)
    ensures Messages(alerts + [a], kind) == Messages(alerts, kind) + if a.kind == kind then [AlertMsg(a)] else []
  {
    assert (alerts + [a])[..|alerts|] == alerts;
  }

  lemma UndroppedSnoc(attempts: seq<Attempt>, t: Attempt, kind: AlertKind)
    ensures Undropped(attempts + [t], kind)
         == Undropped(attempts, kind) + if t.sent && t.alert.kind == kind then [AlertMsg(t.alert)] else []
  {
    assert (attempts + [t])[..|attempts|] == attempts;
  }

  /** An attempt is queued or dropped. */
  lemma Attempted(taken: seq<Alert>, q: seq<Msg>, attempts: seq<Attempt>, kind: AlertKind, t: Attempt)
    requires Accounted(taken, q, attempts, kind)
    ensures Accounted(taken, if t.sent then q + [AlertMsg(t.alert)] else q, attempts + [t], kind)
  {
    UndroppedSnoc(attempts, t, kind);
    if t.sent {
      SendEffect(q, AlertMsg(t.alert));
      Associate(Messages(taken, kind), Select(q, TypeOf(kind)), Pick(AlertMsg(t.alert), TypeOf(kind)));
    }
  }

  lemma TypeOfAlert(m: Msg, kind: AlertKind)
    ensures Type(m) == TypeOf(kind) <==> m.AlertMsg? && m.alert.kind == kind
  {
  }

  /** An alert taken moves from the queue to those taken. */
  lemma TakenOwn(taken: seq<Alert>, q: seq<Msg>, kind: AlertKind)
    requires First(q, TypeOf(kind)) < |q|
    ensures var i := First(q, TypeOf(kind));
            && q[i].AlertMsg?
            && Messages(taken + [q[i].alert], kind) + Select(Remove(q, i), TypeOf(kind))
               == Messages(taken, kind) + Select(q, TypeOf(kind))
  {
    var m := q[First(q, TypeOf(kind))];
    TypeOfAlert(m, kind);
    MessagesSnoc(taken, m.alert, kind);
    ReceiveOwn(q, TypeOf(kind));
    Associate(Messages(taken, kind), [m], Select(Remove(q, First(q, TypeOf(kind))), TypeOf(kind)));
  }

  /** ... and leaves the other kind alone. */
  lemma TakenOther(taken: seq<Alert>, q: seq<Msg>, kind: AlertKind, other: AlertKind)
    requires First(q, TypeOf(other)) < |q| && kind != other
    ensures var i := First(q, TypeOf(other));
            && q[i].AlertMsg?
            && Messages(taken + [q[i].alert], kind) == Messages(taken, kind)
            && Select(Remove(q, i), TypeOf(kind)) == Select(q, TypeOf(kind))
  {
    var m := q[First(q, TypeOf(other))];
    TypeOfAlert(m, other);
    MessagesSnoc(taken, m.alert, kind);
    ReceiveOther(q, First(q, TypeOf(other)), TypeOf(kind));
  }

  /** The attempt the shop is about to make, if any. */
  function NextAttempt(s: System): seq<Attempt>
    requires InRange(s) && s.shop.Alerting?
  {
    var alerts := AlertsFor(s.rows[s.shop.i], s.shop.left);
    if alerts == [] then [] else [Attempt(alerts[0], HasRoom(s.queue, AlertMsg(alerts[0]), s.qbytes))]
  }

  lemma AlertingEntries(w: World)
    requires Can(w, ShopStep) && w.sys.shop.Alerting?
    ensures var w', ts := Step(w, ShopStep), NextAttempt(w.sys);
            && |ts| <= 1
            && w'.hist.taken == w.hist.taken && w'.hist.attempts == w.hist.attempts + ts
            && w'.sys.queue == if ts != [] && ts[0].sent then w.sys.queue + [AlertMsg(ts[0].alert)] else w.sys.queue
  {
  }

  lemma AlertingStep(w: World)
    requires Can(w, ShopStep) && w.sys.shop.Alerting? && AlertInv(w)
    ensures AlertInv(Step(w, ShopStep))
  {
    AlertingEntries(w);
    var ts := NextAttempt(w.sys);
    if ts == [] {
      assert w.hist.attempts + ts == w.hist.attempts;
    } else {
      assert ts == [ts[0]];
      Attempted(w.hist.taken, w.sys.queue, w.hist.attempts, LowStock, ts[0]);
      Attempted(w.hist.taken, w.sys.queue, w.hist.attempts, OutOfStock, ts[0]);
    }
  }

  /** Low-stock alerts go first: the notifier looks for an out-of-stock alert only when it has just found no
      low-stock one, and starts over after every alert it takes. */
  lemma LowStockFirst(s: System)
    ensures NotifierNext(s).notifier == PollOut
            <==> s.notifier == PollLow && Select(s.queue, MSG_NOTIFY_LOW_STOCK) == []
    ensures s.notifier == PollLow ==>
              Select(NotifierNext(s).queue, MSG_NOTIFY_OUT_OF_STOCK) == Select(s.queue, MSG_NOTIFY_OUT_OF_STOCK)
  {
    SelectIsNonempty(s.queue, MSG_NOTIFY_LOW_STOCK);
    if s.notifier == PollLow && First(s.queue, MSG_NOTIFY_LOW_STOCK) < |s.queue| {
      ReceiveOther(s.queue, First(s.queue, MSG_NOTIFY_LOW_STOCK), MSG_NOTIFY_OUT_OF_STOCK);
    }
  }

  lemma NotifierTakes(w: World)
    requires InRange(w.sys) && AlertInv(w)
    ensures AlertInv(Step(w, NotifierStep))
  {
    var s, h := w.sys, w.hist;
    var other := if s.notifier.PollLow? then LowStock else OutOfStock;
    if First(s.queue, TypeOf(other)) < |s.queue| {
      TakenOwn(h.taken, s.queue, other);
      TakenOther(h.taken, s.queue, if other == LowStock then OutOfStock else LowStock, other);
    }
  }

  /** Every other step moves orders and responses only. */
  lemma OtherTraffic(w: World, e: Event)
    requires Can(w, e) && !e.NotifierStep? && !(e.ShopStep? && w.sys.shop.Alerting?)
    ensures var tr := TrafficOf(w.sys, e);
            && (tr.Sent? ==> !tr.msg.AlertMsg?)
            && (tr.Taken? ==> tr.kind == MSG_ORDER || tr.kind == MSG_RESPONSE)
    ensures Step(w, e).hist.taken == w.hist.taken && Step(w, e).hist.attempts == w.hist.attempts
  {
  }

  lemma OtherQueueSteps(w: World, e: Event, kind: AlertKind)
    requires Can(w, e) && !e.NotifierStep? && !(e.ShopStep? && w.sys.shop.Alerting?)
    ensures Select(Step(w, e).sys.queue, TypeOf(kind)) == Select(w.sys.queue, TypeOf(kind))
  {
    OtherTraffic(w, e);
    QueueAfter(w.sys, e);
    TrafficEffect(w.sys.queue, TrafficOf(w.sys, e), TypeOf(kind));
  }

  lemma AlertStep(w: World, e: Event)
    requires Can(w, e) && AlertInv(w)
    ensures AlertInv(Step(w, e))
  {
    if e.NotifierStep? {
      NotifierTakes(w);
    } else if e.ShopStep? && w.sys.shop.Alerting? {
      AlertingStep(w);
    } else {
      OtherTraffic(w, e);
      OtherQueueSteps(w, e, LowStock);
      OtherQueueSteps(w, e, OutOfStock);
    }
  }

  lemma {:induction false} AlertRun(w: World, es: seq<Event>)
    requires AlertInv(w) && Allowed(w, es)
    ensures AlertInv(Execute(w, es))
    decreases |es|
  {
    if es != [] {
      AlertStep(w, es[0]);
      AlertRun(Step(w, es[0]), es[1..]);
    }
  }

  /** Alert history. For each kind, what the notifier has taken followed by what is still queued is,
      in order, the sequence of undropped alerts; and, whenever the shop is outside its locked region,
      the alerts attempted are exactly those the sequential run raises (see AlertMeaning for which
      orders raise which alert). */
  lemma AlertHistory(w: World, es: seq<Event>, kind: AlertKind)
    requires Init(w) && Allowed(w, es)
    ensures var v := Execute(w, es);
            && Messages(v.hist.taken, kind) + Select(v.sys.queue, TypeOf(kind)) == Undropped(v.hist.attempts, kind)
            && (!Held(v.sys) ==> AttemptedAlerts(v.hist.attempts) == Alerts(w.sys.rows, v.hist.ops))
  {
    assert AlertInv(w) by {
      assert Messages([], LowStock) == [] && Messages([], OutOfStock) == [];
    }
    AlertRun(w, es);
    InitRefines(w);
    RefinementRun(w.sys.rows, w, es);
  }

  /** Orders accepted among the given replies. */
  function AcceptedCount(replies: seq<OrderData>): nat {
    if replies == [] then 0
    else AcceptedCount(replies[..|replies| - 1]) + if replies[|replies| - 1].status == 1 then 1 else 0
  }

  /** No more than one alert per accepted order. */
  lemma {:induction false} OneAlertPerOrder(loaded: seq<Item>, ops: seq<Op>)
    ensures |Alerts(loaded, ops)| <= AcceptedCount(Replies(loaded, ops))
  {
    if ops != [] {
      var init, op := ops[..|ops| - 1], ops[|ops| - 1];
      OneAlertPerOrder(loaded, init);
      var rows, rs := Replay(loaded, init), Replies(loaded, init);
      if op.OrderOp? {
        AlertMeaning(rows, op.order);
        assert (rs + ReplyOf(rows, op))[..|rs|] == rs;
      } else {
        assert rs + ReplyOf(rows, op) == rs;
      }
    }
  }
}
