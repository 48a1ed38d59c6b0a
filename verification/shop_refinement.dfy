/** The interleaved system behaves as if locked operations ran one at a time, in the order in which
    they acquired the semaphore. */
module ShopRefinement {
  import opened ShopSpec
  import opened MessageQueue
  import opened ShopSystem

  // ---- Mutual exclusion -------------------------------------------------------------------------

  /** The shop is between sem_lock and sem_unlock. */
  predicate ShopInside(s: System) {
    match s.shop
    case Polling => false
    case Locking(_) => false
    case Replying(_) => false
    case _ => true
  }

  /** The manager is between sem_lock and sem_unlock. */
  predicate MgrInside(s: System) {
    !s.mgr.AtMenu? && !s.mgr.WantLock?
  }

  /** The semaphore is 0 exactly when one process is inside, and never are two. */
  predicate LockInv(s: System) {
    s.sem == 1 - (if ShopInside(s) then 1 else 0) - (if MgrInside(s) then 1 else 0)
  }

  lemma LockStep(s: System, e: Event)
    requires InRange(s) && Enabled(s, e) && LockInv(s)
    ensures LockInv(Next(s, e))
  {
  }

  // ---- The atomic inventory -----------------------------------------------------------------------

  predicate Held(s: System) {
    ShopInside(s) || MgrInside(s)
  }

  /** The operations that have released the semaphore. */
  function Done(w: World): seq<Op> {
    if Held(w.sys) && w.hist.ops != [] then w.hist.ops[..|w.hist.ops| - 1] else w.hist.ops
  }

  /** The inventory the operation now inside found when it got in; outside, the current one. */
  function Base(loaded: seq<Item>, w: World): seq<Item> {
    Replay(loaded, Done(w))
  }

  /** The order as the shop received it, with its status cleared. */
  function Received(h: History): Op
    requires h.ops != []
  {
    h.ops[|h.ops| - 1]
  }

  /** How far the operation now inside has got, compared with running it in one step from `base`. */
  predicate ShopProgress(base: seq<Item>, s: System, op: Op)
    requires ShopInRange(s)
  {
    match s.shop
    case Scanning(o, i) => s.rows == base && op == OrderOp(o) && o.status == 0 && i <= Lookup(base, o.name)
    case Comparing(o, i) => s.rows == base && op == OrderOp(o) && o.status == 0 && i == Lookup(base, o.name)
    case Reading(o, i) =>
      s.rows == base && op == OrderOp(o) && i == Lookup(base, o.name) && base[i].quantity >= o.quantity
    case Writing(o, i, left) =>
      && s.rows == base && op == OrderOp(o) && i == Lookup(base, o.name)
      && base[i].quantity >= o.quantity && left == base[i].quantity - o.quantity
    case Pricing(o, i, left) =>
      && op == OrderOp(o) && InStock(base, o) && i == Lookup(base, o.name)
      && s.rows == Fill(base, o).rows && left == s.rows[i].quantity
    case Alerting(o, i, left) =>
      && op.OrderOp? && InStock(base, op.order) && i == Lookup(base, op.order.name)
      && s.rows == Fill(base, op.order).rows && left == s.rows[i].quantity
      && o == Fill(base, op.order).reply
    case Unlocking(o) =>
      && op.OrderOp?
      && s.rows == ApplyOrder(base, op.order).rows
      && o == ApplyOrder(base, op.order).reply
    case _ => true
  }

  predicate MgrProgress(base: seq<Item>, s: System, op: Op)
    requires MgrInRange(s)
  {
    match s.mgr
    case Seeking(p, i) => s.rows == base && op == p && i <= Lookup(base, p.name)
    case Matched(p, i) => s.rows == base && op == p && i == Lookup(base, p.name)
    case Fetched(p, i, quantity) =>
      s.rows == base && op == p && i == Lookup(base, p.name) && quantity == base[i].quantity
    case Showing(shown) => s.rows == base && op == ShowOp && shown == base[..|shown|]
    case Releasing(p, shown) => s.rows == Apply(base, op) && op == p && (p.ShowOp? ==> shown == base)
    case _ => true
  }

  predicate InventoryInv(loaded: seq<Item>, w: World)
    requires InRange(w.sys)
  {
    && (Held(w.sys) ==> w.hist.ops != [])
    && (!Held(w.sys) ==> w.sys.rows == Base(loaded, w))
    && (ShopInside(w.sys) ==> ShopProgress(Base(loaded, w), w.sys, Received(w.hist)))
    && (MgrInside(w.sys) ==> MgrProgress(Base(loaded, w), w.sys, Received(w.hist)))
    && (w.sys.shop.Locking? ==> w.sys.shop.order.status == 0)
  }

  // ---- Replies, alerts and displays ----------------------------------------------------------------

  /** Every reply sent is the atomic one, in lock order; the last one may still be on its way out. */
  predicate ReplyInv(loaded: seq<Item>, w: World) {
    Replies(loaded, Done(w)) == w.hist.replies + if w.sys.shop.Replying? then [w.sys.shop.order] else []
  }

  function AttemptedAlerts(h: seq<Attempt>): seq<Alert> {
    seq(|h|, i requires 0 <= i < |h| => h[i].alert)
  }

  /** Every alert attempted is the atomic one, in lock order. */
  predicate AttemptInv(loaded: seq<Item>, w: World) {
    AttemptedAlerts(w.hist.attempts)
    == Alerts(loaded, Done(w))
       + if w.sys.shop.Unlocking? && w.hist.ops != [] then AlertsOf(Base(loaded, w), Received(w.hist)) else []
  }

  /** A display shows the atomic inventory at its point of the lock order. */
  predicate ViewOk(loaded: seq<Item>, ops: seq<Op>, v: View) {
    v.op < |ops| && v.rows == Replay(loaded, ops[..v.op])
  }

  predicate ViewInv(loaded: seq<Item>, w: World) {
    forall k :: 0 <= k < |w.hist.shown| ==> ViewOk(loaded, w.hist.ops, w.hist.shown[k])
  }

  // ---- The invariant is inductive ------------------------------------------------------------------

  predicate RefinementInv(loaded: seq<Item>, w: World) {
    && InRange(w.sys)
    && LockInv(w.sys)
    && InventoryInv(loaded, w)
    && ReplyInv(loaded, w)
    && AttemptInv(loaded, w)
    && ViewInv(loaded, w)
  }

  /** Acquiring the semaphore starts an operation; the operations done so far stay the same. */
  lemma AcquireDone(w: World, e: Event)
    requires Can(w, e) && LockInv(w.sys)
    requires !Held(w.sys) && Held(Next(w.sys, e))
    ensures Done(Step(w, e)) == Done(w) == w.hist.ops
    ensures |Step(w, e).hist.ops| == |w.hist.ops| + 1
  {
  }

  /** Releasing it completes the operation. */
  lemma ReleaseDone(loaded: seq<Item>, w: World, e: Event)
    requires Can(w, e) && LockInv(w.sys) && w.hist.ops != []
    requires Held(w.sys) && !Held(Next(w.sys, e))
    ensures Step(w, e).hist.ops == w.hist.ops
    ensures Done(Step(w, e)) == Done(w) + [Received(w.hist)]
    ensures Base(loaded, Step(w, e)) == Apply(Base(loaded, w), Received(w.hist))
    ensures Replies(loaded, Done(Step(w, e))) == Replies(loaded, Done(w)) + ReplyOf(Base(loaded, w), Received(w.hist))
    ensures Alerts(loaded, Done(Step(w, e))) == Alerts(loaded, Done(w)) + AlertsOf(Base(loaded, w), Received(w.hist))
  {
    assert w.hist.ops == Done(w) + [Received(w.hist)];
    ReplaySnoc(loaded, Done(w), Received(w.hist));
  }

  lemma ShopProgressStep(base: seq<Item>, s: System, op: Op)
    requires InRange(s) && Enabled(s, ShopStep) && ShopInside(s) && !s.shop.Unlocking?
    requires ShopProgress(base, s, op)
    ensures ShopProgress(base, ShopNext(s), op)
  {
  }

  lemma MgrProgressStep(base: seq<Item>, s: System, op: Op)
    requires InRange(s) && Enabled(s, MgrStep) && MgrInside(s) && !s.mgr.Releasing?
    requires MgrProgress(base, s, op)
    ensures MgrProgress(base, MgrNext(s), op)
  {
  }

  /** Inside a locked region the operations done stay the same. */
  lemma InnerFrame(loaded: seq<Item>, w: World, w': World)
    requires InRange(w.sys) && InRange(w'.sys)
    requires Held(w.sys) && Held(w'.sys) && w.hist.ops != [] && w'.hist.ops == w.hist.ops
    requires ShopInside(w'.sys) ==> ShopProgress(Base(loaded, w), w'.sys, Received(w.hist))
    requires MgrInside(w'.sys) ==> MgrProgress(Base(loaded, w), w'.sys, Received(w.hist))
    requires w'.sys.shop.Locking? ==> w'.sys.shop.order.status == 0
    ensures InventoryInv(loaded, w') && Done(w') == Done(w)
  {
  }

  lemma ShopInner(loaded: seq<Item>, w: World)
    requires Can(w, ShopStep) && LockInv(w.sys) && InventoryInv(loaded, w)
    requires ShopInside(w.sys) && !w.sys.shop.Unlocking?
    ensures InventoryInv(loaded, Step(w, ShopStep)) && Done(Step(w, ShopStep)) == Done(w)
  {
    ShopProgressStep(Base(loaded, w), w.sys, Received(w.hist));
    ShopLogEntries(w);
    InnerFrame(loaded, w, Step(w, ShopStep));
  }

  lemma MgrInner(loaded: seq<Item>, w: World)
    requires Can(w, MgrStep) && LockInv(w.sys) && InventoryInv(loaded, w)
    requires MgrInside(w.sys) && !w.sys.mgr.Releasing?
    ensures InventoryInv(loaded, Step(w, MgrStep)) && Done(Step(w, MgrStep)) == Done(w)
  {
    MgrProgressStep(Base(loaded, w), w.sys, Received(w.hist));
    MgrLogEntries(w);
    InnerFrame(loaded, w, Step(w, MgrStep));
  }

  lemma Acquire(loaded: seq<Item>, w: World, e: Event)
    requires Can(w, e) && LockInv(w.sys) && InventoryInv(loaded, w)
    requires (e.ShopStep? && w.sys.shop.Locking?) || (e.MgrStep? && w.sys.mgr.WantLock?)
    ensures InventoryInv(loaded, Step(w, e))
  {
    AcquireDone(w, e);
  }

  lemma Release(loaded: seq<Item>, w: World, e: Event)
    requires Can(w, e) && LockInv(w.sys) && InventoryInv(loaded, w)
    requires (e.ShopStep? && w.sys.shop.Unlocking?) || (e.MgrStep? && w.sys.mgr.Releasing?)
    ensures InventoryInv(loaded, Step(w, e))
  {
    ReleaseDone(loaded, w, e);
  }

  lemma ShopOuter(loaded: seq<Item>, w: World)
    requires Can(w, ShopStep) && LockInv(w.sys) && InventoryInv(loaded, w)
    requires w.sys.shop.Polling? || w.sys.shop.Replying?
    ensures InventoryInv(loaded, Step(w, ShopStep)) && Done(Step(w, ShopStep)) == Done(w)
  {
    assert Step(w, ShopStep).hist.ops == w.hist.ops;
    assert Step(w, ShopStep).sys.mgr == w.sys.mgr && Step(w, ShopStep).sys.rows == w.sys.rows;
    assert Done(Step(w, ShopStep)) == Done(w);
  }

  /** Steps of the notifier, the customers and the manager's menu touch nothing the lock protects. */
  lemma OtherSteps(w: World, e: Event)
    requires Can(w, e) && !e.ShopStep? && !e.MgrStep?
    ensures var w' := Step(w, e);
            && w'.sys.rows == w.sys.rows && w'.sys.shop == w.sys.shop && w'.sys.sem == w.sys.sem
            && (w'.sys.mgr == w.sys.mgr || (w.sys.mgr.AtMenu? && w'.sys.mgr.WantLock?))
            && w'.hist.ops == w.hist.ops && w'.hist.replies == w.hist.replies
            && w'.hist.attempts == w.hist.attempts && w'.hist.shown == w.hist.shown
  {
  }

  lemma ProgressFrame(base: seq<Item>, s: System, s': System, op: Op)
    requires InRange(s) && InRange(s')
    requires s'.rows == s.rows && s'.shop == s.shop
    requires s'.mgr == s.mgr || (s.mgr.AtMenu? && s'.mgr.WantLock?)
    ensures ShopInside(s') == ShopInside(s) && MgrInside(s') == MgrInside(s)
    ensures ShopProgress(base, s', op) == ShopProgress(base, s, op)
    ensures MgrProgress(base, s', op) == MgrProgress(base, s, op)
  {
  }

  lemma UnprotectedFrame(loaded: seq<Item>, w: World, w': World)
    requires InRange(w.sys) && InRange(w'.sys)
    requires w'.sys.rows == w.sys.rows && w'.sys.shop == w.sys.shop
    requires w'.sys.mgr == w.sys.mgr || (w.sys.mgr.AtMenu? && w'.sys.mgr.WantLock?)
    requires w'.hist.ops == w.hist.ops
    ensures Done(w') == Done(w)
    ensures InventoryInv(loaded, w) ==> InventoryInv(loaded, w')
  {
    if w.hist.ops != [] {
      ProgressFrame(Base(loaded, w), w.sys, w'.sys, Received(w.hist));
    }
  }

  lemma InventoryStep(loaded: seq<Item>, w: World, e: Event)
    requires Can(w, e) && LockInv(w.sys) && InventoryInv(loaded, w)
    ensures InventoryInv(loaded, Step(w, e))
  {
    match e
    case ShopStep =>
      if w.sys.shop.Locking? {
        Acquire(loaded, w, e);
      } else if w.sys.shop.Unlocking? {
        Release(loaded, w, e);
      } else if ShopInside(w.sys) {
        ShopInner(loaded, w);
      } else {
        ShopOuter(loaded, w);
      }
    case MgrStep =>
      if w.sys.mgr.WantLock? {
        Acquire(loaded, w, e);
      } else if w.sys.mgr.Releasing? {
        Release(loaded, w, e);
      } else {
        MgrInner(loaded, w);
      }
    case _ =>
      OtherSteps(w, e);
      UnprotectedFrame(loaded, w, Step(w, e));
  }

  /** The alert attempted is the one the sequential run raises. */
  lemma AlertingLogs(base: seq<Item>, w: World, op: Op)
    requires InRange(w.sys) && w.sys.shop.Alerting? && ShopProgress(base, w.sys, op)
    ensures AttemptedAlerts(Step(w, ShopStep).hist.attempts) == AttemptedAlerts(w.hist.attempts) + AlertsOf(base, op)
  {
  }

  /** What the shop's step adds to the reply log and the alert log. */
  lemma ShopLogEntries(w: World)
    requires Can(w, ShopStep)
    ensures var h, h' := w.hist, Step(w, ShopStep).hist;
            && h'.replies == h.replies + (if w.sys.shop.Replying? then [w.sys.shop.order] else [])
            && (!w.sys.shop.Alerting? ==> h'.attempts == h.attempts)
            && (!w.sys.shop.Locking? ==> h'.ops == h.ops)
            && (ShopInside(w.sys) && !w.sys.shop.Unlocking? ==>
                  ShopInside(Step(w, ShopStep).sys) && !Step(w, ShopStep).sys.shop.Replying?)
            && (!ShopInside(w.sys) && !w.sys.shop.Locking? ==>
                  !ShopInside(Step(w, ShopStep).sys) && !Step(w, ShopStep).sys.shop.Replying?)
            && Step(w, ShopStep).sys.mgr == w.sys.mgr
  {
  }

  /** The logs when the operations done stay the same. */
  lemma LogsKept(loaded: seq<Item>, w: World, w': World)
    requires ReplyInv(loaded, w) && AttemptInv(loaded, w) && Done(w') == Done(w)
    requires w'.hist.replies + (if w'.sys.shop.Replying? then [w'.sys.shop.order] else [])
          == w.hist.replies + (if w.sys.shop.Replying? then [w.sys.shop.order] else [])
    requires w.sys.shop.Unlocking? ==> w'.sys.shop.Unlocking? && w'.hist.ops == w.hist.ops
    requires if w'.sys.shop.Unlocking? && !w.sys.shop.Unlocking? then
               w'.hist.ops != []
               && AttemptedAlerts(w'.hist.attempts)
                  == AttemptedAlerts(w.hist.attempts) + AlertsOf(Base(loaded, w), Received(w'.hist))
             else w'.hist.attempts == w.hist.attempts
    ensures ReplyInv(loaded, w') && AttemptInv(loaded, w')
  {
  }

  /** The logs when the operation inside is completed: its reply is on its way, its alert has been tried. */
  lemma LogsReleased(loaded: seq<Item>, w: World, w': World)
    requires ReplyInv(loaded, w) && AttemptInv(loaded, w) && w.hist.ops != []
    requires w'.hist.replies == w.hist.replies && w'.hist.attempts == w.hist.attempts && !w'.sys.shop.Unlocking?
    requires Replies(loaded, Done(w')) == Replies(loaded, Done(w)) + ReplyOf(Base(loaded, w), Received(w.hist))
    requires Alerts(loaded, Done(w')) == Alerts(loaded, Done(w)) + AlertsOf(Base(loaded, w), Received(w.hist))
    requires if w.sys.shop.Unlocking? then
               && w'.sys.shop == Replying(w.sys.shop.order)
               && ReplyOf(Base(loaded, w), Received(w.hist)) == [w.sys.shop.order]
             else w'.sys.shop == w.sys.shop && !Received(w.hist).OrderOp?
    ensures ReplyInv(loaded, w') && AttemptInv(loaded, w')
  {
  }

  /** An order for an item not in stock raises no alert. */
  lemma QuietUnlock(base: seq<Item>, s: System, op: Op)
    requires InRange(s) && Enabled(s, ShopStep) && ShopInside(s) && !s.shop.Unlocking? && !s.shop.Alerting?
    requires ShopProgress(base, s, op) && ShopNext(s).shop.Unlocking?
    ensures AlertsOf(base, op) == []
  {
  }

  lemma AcquireLogs(loaded: seq<Item>, w: World)
    requires Can(w, ShopStep) && LockInv(w.sys) && ReplyInv(loaded, w) && AttemptInv(loaded, w)
    requires w.sys.shop.Locking?
    ensures ReplyInv(loaded, Step(w, ShopStep)) && AttemptInv(loaded, Step(w, ShopStep))
  {
    ShopLogEntries(w);
    AcquireDone(w, ShopStep);
    LogsKept(loaded, w, Step(w, ShopStep));
  }

  lemma ReleaseLogs(loaded: seq<Item>, w: World)
    requires Can(w, ShopStep) && LockInv(w.sys) && InventoryInv(loaded, w)
    requires ReplyInv(loaded, w) && AttemptInv(loaded, w)
    requires w.sys.shop.Unlocking?
    ensures ReplyInv(loaded, Step(w, ShopStep)) && AttemptInv(loaded, Step(w, ShopStep))
  {
    ShopLogEntries(w);
    ReleaseDone(loaded, w, ShopStep);
    LogsReleased(loaded, w, Step(w, ShopStep));
  }

  lemma InnerLogs(loaded: seq<Item>, w: World)
    requires Can(w, ShopStep) && LockInv(w.sys) && InventoryInv(loaded, w)
    requires ReplyInv(loaded, w) && AttemptInv(loaded, w)
    requires ShopInside(w.sys) && !w.sys.shop.Unlocking?
    ensures ReplyInv(loaded, Step(w, ShopStep)) && AttemptInv(loaded, Step(w, ShopStep))
  {
    ShopLogEntries(w);
    ShopInner(loaded, w);
    if w.sys.shop.Alerting? {
      AlertingLogs(Base(loaded, w), w, Received(w.hist));
    } else if ShopNext(w.sys).shop.Unlocking? {
      QuietUnlock(Base(loaded, w), w.sys, Received(w.hist));
    }
    LogsKept(loaded, w, Step(w, ShopStep));
  }

  lemma OuterLogs(loaded: seq<Item>, w: World)
    requires Can(w, ShopStep) && LockInv(w.sys) && InventoryInv(loaded, w)
    requires ReplyInv(loaded, w) && AttemptInv(loaded, w)
    requires w.sys.shop.Polling? || w.sys.shop.Replying?
    ensures ReplyInv(loaded, Step(w, ShopStep)) && AttemptInv(loaded, Step(w, ShopStep))
  {
    ShopLogEntries(w);
    ShopOuter(loaded, w);
    LogsKept(loaded, w, Step(w, ShopStep));
  }

  lemma ShopLogs(loaded: seq<Item>, w: World)
    requires Can(w, ShopStep) && LockInv(w.sys) && InventoryInv(loaded, w)
    requires ReplyInv(loaded, w) && AttemptInv(loaded, w)
    ensures ReplyInv(loaded, Step(w, ShopStep))
    ensures AttemptInv(loaded, Step(w, ShopStep))
  {
    if w.sys.shop.Locking? {
      AcquireLogs(loaded, w);
    } else if w.sys.shop.Unlocking? {
      ReleaseLogs(loaded, w);
    } else if ShopInside(w.sys) {
      InnerLogs(loaded, w);
    } else {
      OuterLogs(loaded, w);
    }
  }

  /** The manager's step adds nothing to those logs, and its operations get no reply and raise no alert. */
  lemma MgrLogEntries(w: World)
    requires Can(w, MgrStep)
    ensures var h, h' := w.hist, Step(w, MgrStep).hist;
            && h'.replies == h.replies && h'.attempts == h.attempts
            && (!w.sys.mgr.WantLock? ==> h'.ops == h.ops)
            && Step(w, MgrStep).sys.shop == w.sys.shop
            && (MgrInside(w.sys) && !w.sys.mgr.Releasing? ==> MgrInside(Step(w, MgrStep).sys))
  {
  }

  lemma MgrLogs(loaded: seq<Item>, w: World)
    requires Can(w, MgrStep) && LockInv(w.sys) && InventoryInv(loaded, w)
    requires ReplyInv(loaded, w) && AttemptInv(loaded, w)
    ensures ReplyInv(loaded, Step(w, MgrStep))
    ensures AttemptInv(loaded, Step(w, MgrStep))
  {
    MgrLogEntries(w);
    if w.sys.mgr.WantLock? {
      AcquireDone(w, MgrStep);
      LogsKept(loaded, w, Step(w, MgrStep));
    } else if w.sys.mgr.Releasing? {
      ReleaseDone(loaded, w, MgrStep);
      LogsReleased(loaded, w, Step(w, MgrStep));
    } else {
      MgrInner(loaded, w);
      LogsKept(loaded, w, Step(w, MgrStep));
    }
  }

  lemma LogsStep(loaded: seq<Item>, w: World, e: Event)
    requires Can(w, e) && RefinementInv(loaded, w)
    ensures ReplyInv(loaded, Step(w, e))
    ensures AttemptInv(loaded, Step(w, e))
  {
    match e
    case ShopStep => ShopLogs(loaded, w);
    case MgrStep => MgrLogs(loaded, w);
    case _ =>
      OtherSteps(w, e);
      UnprotectedFrame(loaded, w, Step(w, e));
  }

  /** What a step does to the log of displays. */
  lemma ViewEntries(w: World, e: Event)
    requires Can(w, e)
    ensures var h, h' := w.hist, Step(w, e).hist;
            && h.ops <= h'.ops
            && (e.MgrStep? && w.sys.mgr.Releasing? && w.sys.mgr.op.ShowOp? && h.ops != [] ==>
                  h'.ops == h.ops && h'.shown == h.shown + [View(|h.ops| - 1, w.sys.mgr.rows)])
            && (!(e.MgrStep? && w.sys.mgr.Releasing? && w.sys.mgr.op.ShowOp? && h.ops != []) ==> h'.shown == h.shown)
  {
  }

  lemma ViewStays(loaded: seq<Item>, ops: seq<Op>, ops': seq<Op>, v: View)
    requires ops <= ops' && ViewOk(loaded, ops, v)
    ensures ViewOk(loaded, ops', v)
  {
    assert ops'[..v.op] == ops[..v.op];
  }

  lemma ViewsStep(loaded: seq<Item>, w: World, e: Event)
    requires Can(w, e) && LockInv(w.sys) && InventoryInv(loaded, w) && ViewInv(loaded, w)
    ensures ViewInv(loaded, Step(w, e))
  {
    ViewEntries(w, e);
    ViewsKept(loaded, w.hist.ops, Step(w, e).hist.ops, w.hist.shown);
    if e.MgrStep? && w.sys.mgr.Releasing? && w.sys.mgr.op.ShowOp? && w.hist.ops != [] {
      assert Done(w) == w.hist.ops[..|w.hist.ops| - 1];
      assert ViewOk(loaded, w.hist.ops, View(|w.hist.ops| - 1, w.sys.mgr.rows));
    }
  }

  lemma ViewsKept(loaded: seq<Item>, ops: seq<Op>, ops': seq<Op>, shown: seq<View>)
    requires ops <= ops' && forall k :: 0 <= k < |shown| ==> ViewOk(loaded, ops, shown[k])
    ensures forall k :: 0 <= k < |shown| ==> ViewOk(loaded, ops', shown[k])
  {
    forall k | 0 <= k < |shown| ensures ViewOk(loaded, ops', shown[k]) {
      ViewStays(loaded, ops, ops', shown[k]);
    }
  }

  lemma RefinementStep(loaded: seq<Item>, w: World, e: Event)
    requires Can(w, e) && RefinementInv(loaded, w)
    ensures RefinementInv(loaded, Step(w, e))
  {
    LockStep(w.sys, e);
    InventoryStep(loaded, w, e);
    LogsStep(loaded, w, e);
    ViewsStep(loaded, w, e);
  }

  lemma {:induction false} RefinementRun(loaded: seq<Item>, w: World, es: seq<Event>)
    requires RefinementInv(loaded, w) && Allowed(w, es)
    ensures RefinementInv(loaded, Execute(w, es))
    decreases |es|
  {
    if es != [] {
      RefinementStep(loaded, w, es[0]);
      RefinementRun(loaded, Step(w, es[0]), es[1..]);
    }
  }

  lemma InitRefines(w: World)
    requires Init(w)
    ensures RefinementInv(w.sys.rows, w)
  {
  }

  // ---- Main results -----------------------------------------------------------------------------

  /** In every reachable state at most one process is inside a locked region, and the semaphore says whether. */
  lemma MutualExclusion(w: World, es: seq<Event>)
    requires Init(w) && Allowed(w, es)
    ensures var s := Execute(w, es).sys;
            && !(ShopInside(s) && MgrInside(s))
            && (s.sem == 0 <==> ShopInside(s) || MgrInside(s))
            && s.sem <= 1
  {
    InitRefines(w);
    RefinementRun(w.sys.rows, w, es);
  }

  /** The refinement relation read off the invariant. */
  lemma Refines(loaded: seq<Item>, v: World)
    requires RefinementInv(loaded, v)
    ensures !Held(v.sys) ==> v.sys.rows == Replay(loaded, v.hist.ops)
    ensures v.hist.replies <= Replies(loaded, v.hist.ops)
    ensures !Held(v.sys) && !v.sys.shop.Replying? ==> v.hist.replies == Replies(loaded, v.hist.ops)
  {
    if Held(v.sys) {
      assert v.hist.ops == Done(v) + [Received(v.hist)];
      ReplaySnoc(loaded, Done(v), Received(v.hist));
    }
  }

  /** Refinement: whenever nobody is inside, the inventory is the one obtained by running the locked
      operations one at a time in lock-acquisition order; the replies sent are, in that order, the
      replies of that sequential run; and everything the manager displayed was the inventory of the
      sequential run at the moment its lock was acquired. */
  lemma Refinement(w: World, es: seq<Event>)
    requires Init(w) && Allowed(w, es)
    ensures var v := Execute(w, es);
            && InRange(v.sys)
            && (!Held(v.sys) ==> v.sys.rows == Replay(w.sys.rows, v.hist.ops))
            && v.hist.replies <= Replies(w.sys.rows, v.hist.ops)
            && (!Held(v.sys) && !v.sys.shop.Replying? ==> v.hist.replies == Replies(w.sys.rows, v.hist.ops))
            && (forall k :: 0 <= k < |v.hist.shown| ==> ViewOk(w.sys.rows, v.hist.ops, v.hist.shown[k]))
  {
    InitRefines(w);
    RefinementRun(w.sys.rows, w, es);
    Refines(w.sys.rows, Execute(w, es));
  }
}
