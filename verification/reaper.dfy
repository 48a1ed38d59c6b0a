/** The SIGCHLD handler that reaps every dead child although the signal is not counted.

    SIGCHLD follows section 2.4.1 (Signal Generation and Delivery) of POSIX.1-2017, System Interfaces: it
    is pending or not, further occurrences while it is pending leave no trace, and it is blocked while its
    own handler runs. */
module Reaper {

  datatype Status = ExitedWith(code: int) | KilledBy(signal: int)

  /** A line the handler prints. */
  datatype Report = Report(child: nat, status: Status)

  /** main: block, install, unblock, then fork. */
  datatype MainPc = Setup | Blocked | Installed | Forking

  /** sigchld_handler: saving errno, calling waitpid, printing what it returned, restoring errno. */
  datatype HandlerPc = Idle | Entered | AtWaitpid | Reporting(report: Report) | Leaving

  const ECHILD: int := 10

  datatype State = State(
    main: MainPc,
    children: nat,              // how many main forks
    forked: nat,                // children are numbered in fork order
    blocked: bool,
    installed: bool,
    pending: bool,
    handler: HandlerPc,
    alive: set<nat>,
    zombies: map<nat, Status>,
    reports: seq<Report>,
    errno: int,
    savedErrno: int,
    mainErrno: int,             // errno as main last left it
    died: map<nat, Status>)     // how each child died

  datatype Event =
    | MainStep
    | MainErrno(value: int)                 // a library call in main sets errno
    | Die(child: nat, status: Status)
    | Deliver
    | HandlerStep(pick: nat, noise: int)    // the zombie waitpid returns; what printing does to errno

  predicate Enabled(s: State, e: Event) {
    match e
    case MainStep => s.handler.Idle? && (s.main == Forking ==> s.forked < s.children)
    case MainErrno(_) => s.handler.Idle?
    case Die(child, _) => child in s.alive
    case Deliver => s.pending && !s.blocked && s.installed && s.handler.Idle?
    case HandlerStep(pick, _) =>
      !s.handler.Idle? && (s.handler.AtWaitpid? && s.zombies.Keys != {} ==> pick in s.zombies)
  }

  function MainNext(s: State): State {
    match s.main
    case Setup => s.(main := Blocked, blocked := true)
    case Blocked => s.(main := Installed, installed := true)
    case Installed => s.(main := Forking, blocked := false)
    case Forking => s.(forked := s.forked + 1, alive := s.alive + {s.forked})
  }

  function HandlerNext(s: State, pick: nat, noise: int): State
    requires Enabled(s, HandlerStep(pick, noise))
  {
    match s.handler
    case Entered => s.(handler := AtWaitpid, savedErrno := s.errno)
    case AtWaitpid =>
      if s.zombies.Keys != {} then
        s.(handler := Reporting(Report(pick, s.zombies[pick])), zombies := s.zombies - {pick})
      else if s.alive != {} then s.(handler := Leaving)
      else s.(handler := Leaving, errno := ECHILD)
    case Reporting(r) => s.(handler := AtWaitpid, reports := s.reports + [r], errno := noise)
    case Leaving => s.(handler := Idle, errno := s.savedErrno)
    case Idle => s
  }

  function Next(s: State, e: Event): State
    requires Enabled(s, e)
  {
    match e
    case MainStep => MainNext(s)
    case MainErrno(value) => s.(errno := value, mainErrno := value)
    case Die(child, status) =>
      s.(alive := s.alive - {child}, zombies := s.zombies[child := status], pending := true,
         died := s.died[child := status])
    case Deliver => s.(pending := false, handler := Entered)
    case HandlerStep(pick, noise) => HandlerNext(s, pick, noise)
  }

  predicate Allowed(s: State, es: seq<Event>)
    decreases |es|
  {
    es == [] || (Enabled(s, es[0]) && Allowed(Next(s, es[0]), es[1..]))
  }

  function Execute(s: State, es: seq<Event>): State
    requires Allowed(s, es)
    decreases |es|
  {
    if es == [] then s else Execute(Next(s, es[0]), es[1..])
  }

  function Start(children: nat): State {
    State(Setup, children, 0, false, false, false, Idle, {}, map[], [], 0, 0, 0, map[])
  }

  // ---- Invariants -----------------------------------------------------------------------------------

  /** The children the handler has printed or is about to print, oldest first. */
  function Reaped(s: State): seq<Report> {
    s.reports + if s.handler.Reporting? then [s.handler.report] else []
  }

  ghost predicate Reported(reports: seq<Report>, child: nat) {
    exists k :: 0 <= k < |reports| && reports[k].child == child
  }

  /** Each forked child is alive, a zombie, or reaped, and only one of these; it is reaped once. */
  ghost predicate PartitionInv(s: State) {
    && (forall c: nat :: c < s.forked <==> c in s.alive || c in s.zombies || Reported(Reaped(s), c))
    && (forall c :: c in s.alive ==> c !in s.zombies && !Reported(Reaped(s), c))
    && (forall c :: c in s.zombies ==> !Reported(Reaped(s), c))
    && (forall i, j :: 0 <= i < j < |Reaped(s)| ==> Reaped(s)[i].child != Reaped(s)[j].child)
  }

  /** Zombies and reports carry the status the child died with. */
  ghost predicate StatusInv(s: State) {
    && (forall c :: c in s.zombies ==> c in s.died && s.died[c] == s.zombies[c])
    && (forall k :: 0 <= k < |Reaped(s)| ==>
          Reaped(s)[k].child in s.died && s.died[Reaped(s)[k].child] == Reaped(s)[k].status)
    && (forall c: nat :: c in s.died <==> c < s.forked && c !in s.alive)
  }

  /** The handler will call waitpid again. */
  predicate InLoop(h: HandlerPc) {
    h.Entered? || h.AtWaitpid? || h.Reporting?
  }

  predicate SignalInv(s: State) {
    && (s.zombies.Keys != {} ==> s.pending || InLoop(s.handler))
    && (s.main != Forking ==> s.forked == 0 && s.alive == {} && !s.pending && s.handler.Idle?)
    && (s.installed <==> s.main == Installed || s.main == Forking)
    && (s.blocked <==> s.main == Blocked || s.main == Installed)
  }

  /** Interrupted code never sees a changed errno. */
  predicate ErrnoInv(s: State) {
    && (s.handler.Idle? || s.handler.Entered? ==> s.errno == s.mainErrno)
    && (!s.handler.Idle? && !s.handler.Entered? ==> s.savedErrno == s.mainErrno)
  }

  ghost predicate Inv(s: State) {
    PartitionInv(s) && StatusInv(s) && SignalInv(s) && ErrnoInv(s)
  }

  lemma ReportedSnoc(reports: seq<Report>, r: Report)
    ensures forall c :: Reported(reports + [r], c) <==> Reported(reports, c) || c == r.child
  {
    forall c ensures Reported(reports + [r], c) <==> Reported(reports, c) || c == r.child {
      assert (reports + [r])[|reports|] == r;
      if Reported(reports, c) {
        var k :| 0 <= k < |reports| && reports[k].child == c;
        assert (reports + [r])[k].child == c;
      }
    }
  }

  lemma ReapStep(s: State, pick: nat, noise: int)
    requires Inv(s) && s.handler.AtWaitpid? && pick in s.zombies
    ensures Inv(HandlerNext(s, pick, noise))
  {
    var s' := HandlerNext(s, pick, noise);
    var r := Report(pick, s.zombies[pick]);
    assert Reaped(s) == s.reports && Reaped(s') == s.reports + [r];
    ReportedSnoc(s.reports, r);
    assert !Reported(s.reports, pick);
    forall i | 0 <= i < |s.reports| ensures s.reports[i].child != pick {
      assert Reported(s.reports, s.reports[i].child);
    }
  }

  lemma HandlerInv(s: State, pick: nat, noise: int)
    requires Inv(s) && Enabled(s, HandlerStep(pick, noise))
    ensures Inv(HandlerNext(s, pick, noise))
  {
    if s.handler.AtWaitpid? && s.zombies.Keys != {} {
      ReapStep(s, pick, noise);
    } else {
      assert Reaped(HandlerNext(s, pick, noise)) == Reaped(s);
      assert s.handler.AtWaitpid? ==> s.zombies == map[];
    }
  }

  lemma DieInv(s: State, child: nat, status: Status)
    requires Inv(s) && child in s.alive
    ensures Inv(Next(s, Die(child, status)))
  {
    assert Reaped(Next(s, Die(child, status))) == Reaped(s);
    forall k | 0 <= k < |Reaped(s)| ensures Reaped(s)[k].child != child {
      assert Reported(Reaped(s), Reaped(s)[k].child);
    }
  }

  lemma MainInv(s: State)
    requires Inv(s) && Enabled(s, MainStep)
    ensures Inv(MainNext(s))
  {
    assert Reaped(MainNext(s)) == Reaped(s);
  }

  lemma StepInv(s: State, e: Event)
    requires Inv(s) && Enabled(s, e)
    ensures Inv(Next(s, e))
  {
    match e
    case MainStep => MainInv(s);
    case Die(child, status) => DieInv(s, child, status);
    case HandlerStep(pick, noise) => HandlerInv(s, pick, noise);
    case _ => assert Reaped(Next(s, e)) == Reaped(s);
  }

  lemma {:induction false} RunInv(s: State, es: seq<Event>)
    requires Inv(s) && Allowed(s, es)
    ensures Inv(Execute(s, es))
    decreases |es|
  {
    if es != [] {
      StepInv(s, es[0]);
      RunInv(Next(s, es[0]), es[1..]);
    }
  }

  lemma StartInv(children: nat)
    ensures Inv(Start(children))
  {
    assert Reaped(Start(children)) == [];
  }

  // ---- Main results -----------------------------------------------------------------------------------

  /** No lost child. In every interleaving: a zombie means that SIGCHLD is pending or the handler is still
      in its loop; every forked child is alive, a zombie or reaped, exclusively; no child is reported
      twice, and each report carries the status the child died with. */
  lemma NoLostChild(children: nat, es: seq<Event>)
    requires Allowed(Start(children), es)
    ensures var s := Execute(Start(children), es);
            && (s.zombies.Keys != {} ==> s.pending || InLoop(s.handler))
            && PartitionInv(s)
            && StatusInv(s)
  {
    StartInv(children);
    RunInv(Start(children), es);
  }

  /** When nothing is pending and the handler is not running, every dead child has been reported exactly
      once, with its own status, and no zombie is left. */
  lemma QuietMeansReported(children: nat, es: seq<Event>)
    requires Allowed(Start(children), es)
    ensures var s := Execute(Start(children), es);
            !s.pending && s.handler.Idle? ==>
              && s.zombies.Keys == {}
              && (forall c: nat :: c < s.forked && c !in s.alive ==>
                    c in s.died && Reported(s.reports, c))
              && (forall k :: 0 <= k < |s.reports| ==>
                    s.reports[k].child in s.died && s.reports[k].status == s.died[s.reports[k].child])
              && (forall i, j :: 0 <= i < j < |s.reports| ==> s.reports[i].child != s.reports[j].child)
  {
    StartInv(children);
    RunInv(Start(children), es);
    assert Reaped(Execute(Start(children), es)) == Execute(Start(children), es).reports
           || !Execute(Start(children), es).handler.Idle?;
  }

  /** Code interrupted by the handler finds errno as it left it. */
  lemma ErrnoPreserved(children: nat, es: seq<Event>)
    requires Allowed(Start(children), es)
    ensures var s := Execute(Start(children), es);
            s.handler.Idle? ==> s.errno == s.mainErrno
  {
    StartInv(children);
    RunInv(Start(children), es);
  }

  // ---- The system becomes quiet -----------------------------------------------------------------------

  function HandlerWork(h: HandlerPc): nat {
    match h
    case Idle => 0
    case Leaving => 1
    case AtWaitpid => 2
    case Reporting(_) => 3
    case Entered => 3
  }

  function Work(s: State): nat {
    2 * |s.zombies| + HandlerWork(s.handler) + if s.pending then 4 else 0
  }

  predicate Handling(e: Event) { e.Deliver? || e.HandlerStep? }

  /** While there is work the system can do some of it. */
  lemma NextMove(s: State) returns (e: Event)
    requires SignalInv(s) && (s.pending || !s.handler.Idle?)
    ensures Enabled(s, e) && Handling(e)
    ensures Work(Next(s, e)) < Work(s) && Next(s, e).died == s.died
  {
    if s.handler.Idle? {
      e := Deliver;
    } else {
      var pick: nat := 0;
      if s.zombies.Keys != {} {
        pick :| pick in s.zombies;
        assert s.zombies.Keys == (s.zombies - {pick}).Keys + {pick};
      }
      e := HandlerStep(pick, 0);
    }
  }

  /** At rest every dead child has been reported. */
  lemma AtRest(s: State)
    requires Inv(s) && s.handler.Idle? && !s.pending
    ensures s.zombies.Keys == {} && forall c :: c in s.died ==> Reported(s.reports, c)
  {
    assert Reaped(s) == s.reports;
  }

  /** If no more children die, deliveries and handler steps alone bring the system to rest, after at most
      as many steps as there is work, with every dead child reported. */
  lemma {:induction false} BecomesQuiet(s: State) returns (es: seq<Event>)
    requires Inv(s)
    ensures Allowed(s, es) && |es| <= Work(s) && (forall k :: 0 <= k < |es| ==> Handling(es[k]))
    ensures var t := Execute(s, es);
            && !t.pending && t.handler.Idle? && t.zombies.Keys == {}
            && t.died == s.died
            && (forall c :: c in t.died ==> Reported(t.reports, c))
    decreases Work(s)
  {
    if s.handler.Idle? && !s.pending {
      es := [];
      AtRest(s);
    } else {
      var e := NextMove(s);
      StepInv(s, e);
      var rest := BecomesQuiet(Next(s, e));
      es := [e] + rest;
      assert es[1..] == rest;
    }
  }

  // ---- Everything gets done -----------------------------------------------------------------------------

  /** Once the handler has done what it has to do, main can go on. */
  lemma {:induction false} MainGoesOn(s: State) returns (es: seq<Event>)
    requires Inv(s)
    ensures Allowed(s, es)
    ensures var t := Execute(s, es);
            && Inv(t) && t.handler.Idle? && !t.pending
            && t.main == s.main && t.forked == s.forked && t.children == s.children && t.alive == s.alive
  {
    es := BecomesQuiet(s);
    RunInv(s, es);
    HandlingKeeps(s, es);
  }

  lemma {:induction false} HandlingKeeps(s: State, es: seq<Event>)
    requires Allowed(s, es) && forall k :: 0 <= k < |es| ==> Handling(es[k])
    ensures var t := Execute(s, es);
            t.main == s.main && t.forked == s.forked && t.children == s.children && t.alive == s.alive
    decreases |es|
  {
    if es != [] {
      HandlingKeeps(Next(s, es[0]), es[1..]);
    }
  }

  lemma {:induction false} Chain(s: State, es: seq<Event>, fs: seq<Event>)
    requires Allowed(s, es) && Allowed(Execute(s, es), fs)
    ensures Allowed(s, es + fs) && Execute(s, es + fs) == Execute(Execute(s, es), fs)
    decreases |es|
  {
    if es == [] {
      assert es + fs == fs;
    } else {
      assert (es + fs)[1..] == es[1..] + fs;
      Chain(Next(s, es[0]), es[1..], fs);
    }
  }

  /** Steps main and the children still have to make. */
  function Ahead(s: State): int {
    (match s.main case Setup => 3 case Blocked => 2 case Installed => 1 case Forking => 0)
    + 2 * (s.children - s.forked) + |s.alive|
  }

  /** Main's or a child's next step, once the system is quiet. */
  lemma StepAhead(s: State) returns (e: Event)
    requires Inv(s) && s.handler.Idle? && s.forked <= s.children
    requires s.main != Forking || s.forked < s.children || s.alive != {}
    ensures Enabled(s, e) && Next(s, e).forked <= s.children && Next(s, e).children == s.children
    ensures 0 <= Ahead(Next(s, e)) < Ahead(s)
  {
    if s.main != Forking || s.forked < s.children {
      e := MainStep;
      assert s.forked !in s.alive;
    } else {
      var child :| child in s.alive;
      e := Die(child, ExitedWith(0));
      assert s.alive == (s.alive - {child}) + {child};
    }
  }

  lemma {:induction false} ForkedBound(s: State, es: seq<Event>)
    requires Allowed(s, es) && s.forked <= s.children
    ensures Execute(s, es).forked <= Execute(s, es).children == s.children
    decreases |es|
  {
    if es != [] {
      ForkedBound(Next(s, es[0]), es[1..]);
    }
  }

  /** From any state, main can fork every child and every child can die and be reported. */
  lemma {:induction false} Completes(s: State) returns (es: seq<Event>)
    requires Inv(s) && s.forked <= s.children
    ensures Allowed(s, es)
    ensures var t := Execute(s, es);
            && t.main == Forking && t.forked == t.children == s.children && t.alive == {} && t.zombies.Keys == {}
            && (forall c: nat :: c < t.children ==> Reported(t.reports, c))
    decreases Ahead(s)
  {
    es := MainGoesOn(s);
    var t := Execute(s, es);
    if t.main != Forking || t.forked < t.children || t.alive != {} {
      var e := StepAhead(t);
      StepInv(t, e);
      var rest := Completes(Next(t, e));
      assert ([e] + rest)[1..] == rest;
      Chain(s, es, [e] + rest);
      es := es + ([e] + rest);
    } else {
      AtRest(t);
    }
  }

  /** Progress. From every reachable state some run has all children forked, dead and reported. */
  lemma AllReported(children: nat, es: seq<Event>)
    requires Allowed(Start(children), es)
    ensures var s := Execute(Start(children), es);
            exists rest :: Allowed(s, rest) && Complete(Execute(s, rest), children)
  {
    StartInv(children);
    RunInv(Start(children), es);
    ForkedBound(Start(children), es);
    var rest := Completes(Execute(Start(children), es));
    assert Complete(Execute(Execute(Start(children), es), rest), children);
  }

  /** All children have been forked, are dead, and have been reported, and no zombie is left. */
  ghost predicate Complete(s: State, children: nat) {
    && s.forked == children && s.alive == {} && s.zombies.Keys == {}
    && forall c: nat :: c < children ==> Reported(s.reports, c)
  }
}
