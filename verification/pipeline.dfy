/** pipCmd: splitting a pipeline in place, and who holds the pipe's ends while it runs. */
module Pipeline {
  import opened Descriptors
  import opened CommandLine
  import opened Options
  import Tokenizer

  // ---- Splitting --------------------------------------------------------------------------------------

  /** The NULL-terminated command that starts at position `p` of the argument array. */
  function CommandAt(argv: seq<Option<string>>, p: nat): seq<string>
    requires p <= |argv|
    decreases |argv| - p
  {
    if p == |argv| || argv[p].None? then [] else [argv[p].value] + CommandAt(argv, p + 1)
  }

  lemma {:induction false} CommandIs(argv: seq<Option<string>>, p: nat, words: seq<string>)
    requires p + |words| < |argv| && argv[p + |words|].None?
    requires forall k :: 0 <= k < |words| ==> argv[p + k] == Some(words[k])
    ensures CommandAt(argv, p) == words
    decreases |words|
  {
    if words != [] {
      assert argv[p + 0] == Some(words[0]);
      forall k | 0 <= k < |words[1..]| ensures argv[p + 1 + k] == Some(words[1..][k]) {
        assert argv[p + (k + 1)] == Some(words[k + 1]);
      }
      CommandIs(argv, p + 1, words[1..]);
    }
  }

  /** The position of the first "|", or the number of words. */
  function FirstBar(words: seq<string>): (i: nat)
    ensures i <= |words| && "|" !in words[..i]
    ensures i < |words| ==> words[i] == "|"
  {
    if words == [] || words[0] == "|" then 0
    else
      assert forall i :: 0 <= i <= |words| - 1 ==> words[..i + 1] == [words[0]] + words[1..][..i];
      1 + FirstBar(words[1..])
  }

  /** The words before the first "|" and those behind it. */
  function Halves(words: seq<string>): (halves: (seq<string>, seq<string>)) {
    var i := FirstBar(words);
    (words[..i], if i < |words| then words[i + 1..] else [])
  }

  lemma BarAt(words: seq<string>, i: nat, bar: nat)
    requires bar < |words| && words[bar] == "|" && i <= |words| && "|" !in words[..i]
    ensures i <= bar
  {
    assert forall k :: 0 <= k < i ==> words[k] == words[..i][k];
  }

  /** They are the only way to read the words as a command without "|", a "|", and a command. */
  lemma HalvesUnique(first: seq<string>, second: seq<string>)
    requires "|" !in first
    ensures Halves(first + ["|"] + second) == (first, second)
  {
    var words := first + ["|"] + second;
    var i := FirstBar(words);
    BarAt(words, i, |first|);
    assert forall k :: 0 <= k < |first| ==> words[k] == first[k];
    assert words[..|first|] == first && words[|first| + 1..] == second;
  }

  datatype SplitResult = Usage | Misplaced | Split(pipeIndex: nat)

  /** The first part of pipCmd: cmd1 and cmd2 are the NULL-terminated commands at the front and behind the
      first "|", whose place a NULL takes. */
  method SplitPipeline(argc: nat, argv: array<Option<string>>, ghost words: seq<string>) returns (r: SplitResult)
    requires argc == |words| < argv.Length && argv[argc].None?
    requires forall k :: 0 <= k < argc ==> argv[k] == Some(words[k])
    modifies argv
    ensures r.Usage? <==> argc < 3
    ensures r.Split? <==> argc >= 3 && "|" in words[1..argc - 1] && words[0] != "|"
    ensures r.Split? ==>
              && 0 < r.pipeIndex < argc - 1
              && var cmd1, cmd2 := CommandAt(argv[..], 0), CommandAt(argv[..], r.pipeIndex + 1);
              && words == cmd1 + ["|"] + cmd2
              && "|" !in cmd1 && cmd1 != [] && cmd2 != []
              && (cmd1, cmd2) == Halves(words)
    ensures !r.Split? ==> argv[..] == old(argv[..])
  {
    if argc < 3 {
      return Usage;
    }
    var i := 0;
    while i < argc && argv[i] != Some("|")
      invariant 0 <= i <= argc && forall k :: 0 <= k < i ==> words[k] != "|"
    {
      i := i + 1;
    }
    BarInside(words, i);
    if i == argc || i == 0 || i == argc - 1 {
      return Misplaced;
    }
    argv[i] := None;
    SplitAt(argv[..], words, i);
    return Split(i);
  }

  /** The two commands once a NULL has taken the place of the first "|". */
  lemma SplitAt(argv: seq<Option<string>>, words: seq<string>, i: nat)
    requires i < |words| < |argv| && argv[i].None? && argv[|words|].None? && words[i] == "|"
    requires forall k :: 0 <= k < |words| && k != i ==> argv[k] == Some(words[k])
    requires forall k :: 0 <= k < i ==> words[k] != "|"
    ensures CommandAt(argv, 0) == words[..i] && CommandAt(argv, i + 1) == words[i + 1..]
    ensures words == words[..i] + ["|"] + words[i + 1..] && "|" !in words[..i]
    ensures Halves(words) == (words[..i], words[i + 1..])
  {
    CommandIs(argv, 0, words[..i]);
    CommandIs(argv, i + 1, words[i + 1..]);
    assert words == words[..i] + ["|"] + words[i + 1..];
    HalvesUnique(words[..i], words[i + 1..]);
  }

  /** Where the first "|" is decides whether there is one strictly inside, with no "|" in front. */
  lemma BarInside(words: seq<string>, i: nat)
    requires |words| >= 3 && i <= |words| && (forall k :: 0 <= k < i ==> words[k] != "|")
    requires i < |words| ==> words[i] == "|"
    ensures 0 < i < |words| - 1 <==> "|" in words[1..|words| - 1] && words[0] != "|"
  {
    var inner := words[1..|words| - 1];
    assert forall k :: 0 <= k < |inner| ==> inner[k] == words[k + 1];
    if 0 < i < |words| - 1 {
      assert inner[i - 1] == "|";
    }
  }

  // ---- The processes of a pipeline ----------------------------------------------------------------------

  /** The shell, after pipe(): forks both children, then closes both ends. */
  datatype ShellPc = Piped | Forked1 | Forked2 | ClosedRead | ClosedBoth

  /** A child: closes the end it does not use, attaches the other, closes its copy, runs its command (which
      forks once more and waits) and exits. */
  datatype ChildPc = Unborn | Born | ClosedOther | Attached | ClosedOwn | Waiting | Exited

  /** The process that becomes the command: Started before its own redirections, Running after exec. */
  datatype CommandPc = NotForked | Started(files: Opened) | Running | Ended

  datatype Child = Child(pc: ChildPc, table: Table, command: CommandPc, commandTable: Table)

  const NO_CHILD := Child(Unborn, map[], NotForked, map[])

  datatype Processes = Processes(shell: ShellPc, shellTable: Table, first: Child, second: Child)

  /** The shell's table when it calls pipe, the ends pipe returned, and the two commands' redirections. */
  datatype Setup = Setup(before: Table, read: nat, write: nat, redirs1: seq<Redirection>, redirs2: seq<Redirection>)

  /** The setup for two commands typed: each child opens the redirections its own scan finds. */
  function SetupFor(before: Table, cmd1: seq<string>, cmd2: seq<string>): Setup {
    var read := LowestFree(before);
    Setup(before, read, LowestFree(before[read := PipeReadEnd]),
          ScanArgs(cmd1, MAX_ARGS - 1).redirs, ScanArgs(cmd2, MAX_ARGS - 1).redirs)
  }

  /** The standard descriptors are open and no end of a pipe is. */
  predicate GoodTable(t: Table) {
    StandardOpen(t) && forall fd :: fd in t ==> t[fd] != PipeReadEnd && t[fd] != PipeWriteEnd
  }

  /** pipe() on such a table returns the two lowest free descriptors. */
  predicate GoodSetup(u: Setup) {
    && GoodTable(u.before)
    && u.read == LowestFree(u.before)
    && u.write == LowestFree(u.before[u.read := PipeReadEnd])
  }

  function PipedTable(u: Setup): Table {
    u.before[u.read := PipeReadEnd][u.write := PipeWriteEnd]
  }

  /** Which end a child closes first, which it attaches, and to which standard descriptor. */
  datatype Role = Role(unused: nat, used: nat, end: Target, stream: nat, redirs: seq<Redirection>)

  function FirstRole(u: Setup): Role { Role(u.read, u.write, PipeWriteEnd, STDOUT, u.redirs1) }

  function SecondRole(u: Setup): Role { Role(u.write, u.read, PipeReadEnd, STDIN, u.redirs2) }

  datatype Actor = Shell | First | Second | Command1 | Command2

  predicate ChildCanStep(c: Child) {
    match c.pc
    case Unborn => false
    case Waiting => c.command == Ended
    case Exited => false
    case _ => true
  }

  predicate CommandCanStep(c: Child) { c.command.Started? || c.command.Running? }

  predicate CanStep(p: Processes, a: Actor) {
    match a
    case Shell => p.shell != ClosedBoth
    case First => ChildCanStep(p.first)
    case Second => ChildCanStep(p.second)
    case Command1 => CommandCanStep(p.first)
    case Command2 => CommandCanStep(p.second)
  }

  function ShellNext(u: Setup, p: Processes): Processes {
    match p.shell
    case Piped => p.(shell := Forked1, first := NO_CHILD.(pc := Born, table := p.shellTable))
    case Forked1 => p.(shell := Forked2, second := NO_CHILD.(pc := Born, table := p.shellTable))
    case Forked2 => p.(shell := ClosedRead, shellTable := Close(p.shellTable, u.read))
    case ClosedRead => p.(shell := ClosedBoth, shellTable := Close(p.shellTable, u.write))
    case ClosedBoth => p
  }

  /** A child's next system call. `refused` makes its command fail before it forks (a file that does not
      open), in which case the child exits. */
  function ChildNext(r: Role, c: Child, refused: bool): Child {
    match c.pc
    case Born => c.(pc := ClosedOther, table := Close(c.table, r.unused))
    case ClosedOther => c.(pc := Attached, table := Dup2(c.table, r.used, r.stream))
    case Attached => c.(pc := ClosedOwn, table := Close(c.table, r.used))
    case ClosedOwn =>
      if refused then c.(pc := Exited, table := map[])
      else
        var files := OpenAll(c.table, r.redirs);
        Child(Waiting, files.table, Started(files), files.table)
    case _ => c.(pc := Exited, table := map[])
  }

  function CommandNext(c: Child): Child {
    match c.command
    case Started(files) => c.(command := Running, commandTable := ChildTable(files))
    case _ => c.(command := Ended, commandTable := map[])
  }

  function StepOf(u: Setup, p: Processes, a: Actor, refused: bool): Processes {
    match a
    case Shell => ShellNext(u, p)
    case First => p.(first := ChildNext(FirstRole(u), p.first, refused))
    case Second => p.(second := ChildNext(SecondRole(u), p.second, refused))
    case Command1 => p.(first := CommandNext(p.first))
    case Command2 => p.(second := CommandNext(p.second))
  }

  datatype Move = Move(actor: Actor, refused: bool)

  predicate Allowed(u: Setup, p: Processes, moves: seq<Move>)
    decreases |moves|
  {
    moves == []
    || (&& CanStep(p, moves[0].actor)
        && Allowed(u, StepOf(u, p, moves[0].actor, moves[0].refused), moves[1..]))
  }

  function Execute(u: Setup, p: Processes, moves: seq<Move>): Processes
    requires Allowed(u, p, moves)
    decreases |moves|
  {
    if moves == [] then p else Execute(u, StepOf(u, p, moves[0].actor, moves[0].refused), moves[1..])
  }

  function AfterPipe(u: Setup): Processes {
    Processes(Piped, PipedTable(u), NO_CHILD, NO_CHILD)
  }

  // ---- Tables by program position -----------------------------------------------------------------------

  /** What execute_command_main of a child starts from: the shell's own table with one stream replaced. */
  function Ready(before: Table, r: Role): Table { before[r.stream := r.end] }

  function ShellTableAt(u: Setup, pc: ShellPc): Table {
    match pc
    case ClosedRead => u.before[u.write := PipeWriteEnd]
    case ClosedBoth => u.before
    case _ => PipedTable(u)
  }

  predicate TableAt(piped: Table, before: Table, r: Role, c: Child) {
    match c.pc
    case Born => c.table == piped
    case ClosedOther => c.table == before[r.used := r.end]
    case Attached => c.table == before[r.used := r.end][r.stream := r.end]
    case ClosedOwn => c.table == Ready(before, r)
    case Waiting => c.table == OpenAll(Ready(before, r), r.redirs).table
    case _ => c.table == map[]
  }

  predicate CommandAtPc(before: Table, r: Role, c: Child) {
    match c.command
    case Started(files) => files == OpenAll(Ready(before, r), r.redirs) && c.commandTable == files.table
    case Running => c.commandTable == ChildTable(OpenAll(Ready(before, r), r.redirs))
    case _ => c.commandTable == map[]
  }

  /** A command lives only while the child that forked it waits for it. */
  predicate Forks(c: Child) {
    if c.pc == Waiting then c.command != NotForked
    else if c.pc == Exited then c.command == NotForked || c.command == Ended
    else c.command == NotForked
  }

  predicate ChildInv(u: Setup, r: Role, c: Child) {
    TableAt(PipedTable(u), u.before, r, c) && CommandAtPc(u.before, r, c) && Forks(c)
  }

  predicate PipelineInv(u: Setup, p: Processes) {
    && p.shellTable == ShellTableAt(u, p.shell)
    && ChildInv(u, FirstRole(u), p.first)
    && ChildInv(u, SecondRole(u), p.second)
    && (p.first.pc == Unborn <==> p.shell == Piped)
    && (p.second.pc == Unborn <==> p.shell == Piped || p.shell == Forked1)
  }

  /** All that matters about the ends is that they are new descriptors. */
  predicate NewEnds(u: Setup) {
    StandardOpen(u.before) && u.read !in u.before && u.write !in u.before && u.read != u.write
  }

  predicate RoleOf(u: Setup, r: Role) { r == FirstRole(u) || r == SecondRole(u) }

  /** The three calls of a child bring it from the shell's table to the one its command starts from. */
  lemma ChildCalls(u: Setup, r: Role)
    requires NewEnds(u) && RoleOf(u, r)
    ensures Close(PipedTable(u), r.unused) == u.before[r.used := r.end]
    ensures Dup2(u.before[r.used := r.end], r.used, r.stream) == u.before[r.used := r.end][r.stream := r.end]
    ensures Close(u.before[r.used := r.end][r.stream := r.end], r.used) == Ready(u.before, r)
    ensures Close(u.before[r.used := r.end], r.used) == u.before
  {
  }

  lemma ChildStep(u: Setup, r: Role, c: Child, refused: bool)
    requires NewEnds(u) && RoleOf(u, r) && ChildInv(u, r, c) && ChildCanStep(c)
    ensures ChildInv(u, r, ChildNext(r, c, refused))
    ensures ChildNext(r, c, refused).pc != Unborn
  {
    ChildCalls(u, r);
  }

  lemma CommandStep(u: Setup, r: Role, c: Child)
    requires ChildInv(u, r, c) && CommandCanStep(c)
    ensures ChildInv(u, r, CommandNext(c)) && CommandNext(c).pc == c.pc
  {
  }

  lemma ShellStep(u: Setup, p: Processes)
    requires NewEnds(u) && PipelineInv(u, p) && CanStep(p, Shell)
    ensures PipelineInv(u, ShellNext(u, p))
  {
    ChildCalls(u, FirstRole(u));
    ChildCalls(u, SecondRole(u));
  }

  lemma PipelineStep(u: Setup, p: Processes, a: Actor, refused: bool)
    requires NewEnds(u) && PipelineInv(u, p) && CanStep(p, a)
    ensures PipelineInv(u, StepOf(u, p, a, refused))
  {
    match a
    case Shell => ShellStep(u, p);
    case First => ChildStep(u, FirstRole(u), p.first, refused);
    case Second => ChildStep(u, SecondRole(u), p.second, refused);
    case Command1 => CommandStep(u, FirstRole(u), p.first);
    case Command2 => CommandStep(u, SecondRole(u), p.second);
  }

  lemma {:induction false} PipelineRun(u: Setup, p: Processes, moves: seq<Move>)
    requires NewEnds(u) && PipelineInv(u, p) && Allowed(u, p, moves)
    ensures PipelineInv(u, Execute(u, p, moves))
    decreases |moves|
  {
    if moves != [] {
      PipelineStep(u, p, moves[0].actor, moves[0].refused);
      PipelineRun(u, StepOf(u, p, moves[0].actor, moves[0].refused), moves[1..]);
    }
  }

  // ---- Who holds an end ---------------------------------------------------------------------------------

  ghost predicate Holds(t: Table, end: Target) {
    exists fd :: fd in t && t[fd] == end
  }

  /** Some process has the end open. */
  ghost predicate Held(p: Processes, end: Target) {
    || Holds(p.shellTable, end) || Holds(p.first.table, end) || Holds(p.second.table, end)
    || Holds(p.first.commandTable, end) || Holds(p.second.commandTable, end)
  }

  /** Opening files and attaching them creates no new holder of a pipe end. */
  lemma {:induction false} FilesHoldNoEnd(t: Table, rs: seq<Redirection>, end: Target)
    requires !end.File? && !Holds(t, end)
    ensures !Holds(OpenAll(t, rs).table, end)
  {
    if rs != [] {
      FilesHoldNoEnd(t, rs[..|rs| - 1], end);
    }
  }

  lemma ChildHoldsNoEnd(o: Opened, end: Target)
    requires !Holds(o.table, end)
    ensures !Holds(ChildTable(o), end)
  {
    AttachHoldsNoEnd(o.table, o.input, STDIN, end);
    var t1 := Attach(o.table, o.input, STDIN);
    AttachHoldsNoEnd(t1, o.output, STDOUT, end);
    AttachHoldsNoEnd(Attach(t1, o.output, STDOUT), o.error, STDERR, end);
  }

  lemma AttachHoldsNoEnd(t: Table, fd: nat, standard: nat, end: Target)
    requires !Holds(t, end)
    ensures !Holds(Attach(t, fd, standard), end)
  {
  }

  /** A child has its own end from birth to exit, and the other end only until its first close; its command
      never has the other end, and is gone when the child is. */
  lemma ChildHolds(u: Setup, r: Role, c: Child, other: Target)
    requires GoodSetup(u) && NewEnds(u) && RoleOf(u, r) && ChildInv(u, r, c)
    requires other == if r.end == PipeWriteEnd then PipeReadEnd else PipeWriteEnd
    ensures Holds(c.table, r.end) <==> c.pc != Unborn && c.pc != Exited
    ensures Holds(c.table, other) <==> c.pc == Born
    ensures c.pc == Unborn || c.pc == Exited ==> !Holds(c.commandTable, r.end)
    ensures !Holds(c.commandTable, other)
  {
    var ready := Ready(u.before, r);
    assert ready[r.stream] == r.end && !Holds(ready, other);
    FilesHoldNoEnd(ready, r.redirs, other);
    ChildHoldsNoEnd(OpenAll(ready, r.redirs), other);
    OpenAllExtends(ready, r.redirs);
    match c.pc
    case Born => assert c.table[r.used] == r.end && c.table[r.unused] == other;
    case ClosedOther => assert c.table[r.used] == r.end;
    case Attached => assert c.table[r.used] == r.end;
    case ClosedOwn => assert c.table[r.stream] == r.end;
    case Waiting => assert c.table[r.stream] == r.end;
    case _ =>
  }

  lemma ShellHolds(u: Setup, p: Processes)
    requires GoodSetup(u) && NewEnds(u) && PipelineInv(u, p)
    ensures Holds(p.shellTable, PipeWriteEnd) <==> p.shell != ClosedBoth
    ensures Holds(p.shellTable, PipeReadEnd) <==> p.shell != ClosedBoth && p.shell != ClosedRead
  {
    match p.shell
    case ClosedRead => assert p.shellTable[u.write] == PipeWriteEnd;
    case ClosedBoth =>
    case _ => assert p.shellTable[u.write] == PipeWriteEnd && p.shellTable[u.read] == PipeReadEnd;
  }

  /** Who holds an end is decided by how far the shell and the children have got. */
  lemma WhoHolds(u: Setup, p: Processes)
    requires GoodSetup(u) && PipelineInv(u, p)
    ensures !Held(p, PipeWriteEnd)
            <==> p.shell == ClosedBoth && p.second.pc != Unborn && p.second.pc != Born && p.first.pc == Exited
    ensures !Held(p, PipeReadEnd)
            <==> (p.shell == ClosedRead || p.shell == ClosedBoth) && p.first.pc != Born && p.second.pc == Exited
  {
    ShellHolds(u, p);
    ChildHolds(u, FirstRole(u), p.first, PipeReadEnd);
    ChildHolds(u, SecondRole(u), p.second, PipeWriteEnd);
  }

  /** End of file, exactly. In every reachable state nobody holds the write end, so that a reader of the
      pipe sees end of file, if and only if the shell has closed both its copies, the second child has
      closed the one it inherited, and the first child has exited (its command before it). Likewise
      nobody holds the read end, so that a writer is told, if and only if the shell has closed its copy,
      the first child the one it inherited, and the second child has exited. */
  lemma EndOfFile(u: Setup, moves: seq<Move>)
    requires GoodSetup(u) && Allowed(u, AfterPipe(u), moves)
    ensures var p := Execute(u, AfterPipe(u), moves);
            && (!Held(p, PipeWriteEnd)
                <==> p.shell == ClosedBoth && p.second.pc != Unborn && p.second.pc != Born && p.first.pc == Exited)
            && (!Held(p, PipeReadEnd)
                <==> (p.shell == ClosedRead || p.shell == ClosedBoth) && p.first.pc != Born && p.second.pc == Exited)
            && (p.first.pc == Exited ==> p.first.command == NotForked || p.first.command == Ended)
  {
    PipelineRun(u, AfterPipe(u), moves);
    WhoHolds(u, Execute(u, AfterPipe(u), moves));
  }

  lemma RunningConnected(u: Setup, r: Role, c: Child, s: Stream)
    requires NewEnds(u) && RoleOf(u, r) && ChildInv(u, r, c) && c.command == Running
    ensures Standard(s) in c.commandTable
    ensures c.commandTable[Standard(s)] == Wanted(Ready(u.before, r), r.redirs, s)
    ensures !Redirects(r.redirs, s) ==>
              c.commandTable[Standard(s)] == if Standard(s) == r.stream then r.end else u.before[Standard(s)]
  {
    ChildConnected(Ready(u.before, r), r.redirs);
    if !Redirects(r.redirs, s) {
      WantedDefault(Ready(u.before, r), r.redirs, s);
    }
  }

  /** While the commands run, each standard descriptor of each is where its last redirection put it;
      unless redirected, the first's output and the second's input are the two ends of the pipe and
      everything else is the shell's. */
  lemma Connected(u: Setup, moves: seq<Move>, s: Stream)
    requires GoodSetup(u) && Allowed(u, AfterPipe(u), moves)
    ensures var p := Execute(u, AfterPipe(u), moves);
            var c1, c2 := p.first, p.second;
            && (c1.command == Running ==>
                  && Standard(s) in c1.commandTable
                  && c1.commandTable[Standard(s)] == Wanted(u.before[STDOUT := PipeWriteEnd], u.redirs1, s)
                  && (!Redirects(u.redirs1, s) ==>
                        c1.commandTable[Standard(s)] == if s == Output then PipeWriteEnd else u.before[Standard(s)]))
            && (c2.command == Running ==>
                  && Standard(s) in c2.commandTable
                  && c2.commandTable[Standard(s)] == Wanted(u.before[STDIN := PipeReadEnd], u.redirs2, s)
                  && (!Redirects(u.redirs2, s) ==>
                        c2.commandTable[Standard(s)] == if s == Input then PipeReadEnd else u.before[Standard(s)]))
  {
    PipelineRun(u, AfterPipe(u), moves);
    var p := Execute(u, AfterPipe(u), moves);
    if p.first.command == Running {
      RunningConnected(u, FirstRole(u), p.first, s);
    }
    if p.second.command == Running {
      RunningConnected(u, SecondRole(u), p.second, s);
    }
  }

  /** A typed pipeline: two commands with a bar between them. */
  function PipelineLine(parts1: seq<Part>, parts2: seq<Part>): string {
    Tokenizer.Join(Render(parts1) + ["|"] + Render(parts2)) + "\n"
  }

  predicate GoodHalf(parts: seq<Part>) {
    GoodCommand(parts) && parts != [] && |Words(parts)| < 63
  }

  /** The two commands the shell makes of it. */
  lemma TypedHalves(parts1: seq<Part>, parts2: seq<Part>)
    requires GoodHalf(parts1) && GoodHalf(parts2) && "|" !in Render(parts1)
    ensures Halves(Tokenizer.Tokens(PipelineLine(parts1, parts2))) == (Render(parts1), Render(parts2))
    ensures ScanArgs(Render(parts1), MAX_ARGS - 1) == Scan(Words(parts1), Redirections(parts1), true)
    ensures ScanArgs(Render(parts2), MAX_ARGS - 1) == Scan(Words(parts2), Redirections(parts2), true)
  {
    RenderPlain(parts1);
    RenderPlain(parts2);
    assert Tokenizer.Plain("|");
    Tokenizer.JoinTokens(Render(parts1) + ["|"] + Render(parts2), "\n");
    HalvesUnique(Render(parts1), Render(parts2));
    ScanTyped(parts1);
    ScanTyped(parts2);
  }

  lemma ScanTyped(parts: seq<Part>)
    requires GoodHalf(parts)
    ensures ScanArgs(Render(parts), MAX_ARGS - 1) == Scan(Words(parts), Redirections(parts), true)
  {
    ScanRender(parts, MAX_ARGS - 1);
    KeptAll(parts, MAX_ARGS - 1);
  }

  /** From the typed pipeline to the running commands: the line is split at its bar, the words of each half
      reach its command, and while a command runs each of its streams is on the last file typed for it (see
      OnTyped); without one, the first's output and the second's input are the two ends of the pipe and
      everything else is the shell's. */
  lemma TypedPipeline(before: Table, parts1: seq<Part>, parts2: seq<Part>, moves: seq<Move>)
    requires GoodTable(before) && GoodHalf(parts1) && GoodHalf(parts2) && "|" !in Render(parts1)
    requires var (cmd1, cmd2) := Halves(Tokenizer.Tokens(PipelineLine(parts1, parts2)));
             var u := SetupFor(before, cmd1, cmd2);
             Allowed(u, AfterPipe(u), moves)
    ensures var (cmd1, cmd2) := Halves(Tokenizer.Tokens(PipelineLine(parts1, parts2)));
            var u := SetupFor(before, cmd1, cmd2);
            var p := Execute(u, AfterPipe(u), moves);
            && ScanArgs(cmd1, MAX_ARGS - 1).words == Words(parts1)
            && ScanArgs(cmd2, MAX_ARGS - 1).words == Words(parts2)
            && (p.first.command == Running ==> OnTyped(before[1 := PipeWriteEnd], parts1, p.first.commandTable))
            && (p.second.command == Running ==> OnTyped(before[0 := PipeReadEnd], parts2, p.second.commandTable))
  {
    TypedHalves(parts1, parts2);
    var u := SetupFor(before, Render(parts1), Render(parts2));
    var p := Execute(u, AfterPipe(u), moves);
    Connected(u, moves, Input);
    Connected(u, moves, Output);
    Connected(u, moves, Error);
    if p.first.command == Running {
      EachStream(p.first.commandTable, before[1 := PipeWriteEnd], parts1);
    }
    if p.second.command == Running {
      EachStream(p.second.commandTable, before[0 := PipeReadEnd], parts2);
    }
  }

  lemma EachStream(child: Table, t: Table, parts: seq<Part>)
    requires StandardOpen(t) && GoodCommand(parts)
    requires Standard(Input) in child && child[Standard(Input)] == Wanted(t, Redirections(parts), Input)
    requires Standard(Output) in child && child[Standard(Output)] == Wanted(t, Redirections(parts), Output)
    requires Standard(Error) in child && child[Standard(Error)] == Wanted(t, Redirections(parts), Error)
    ensures OnTyped(t, parts, child)
  {
    forall s: Stream ensures Standard(s) in child && child[Standard(s)] == Wanted(t, Redirections(parts), s) {
      match s case Input => case Output => case Error =>
    }
    WantedIsTyped(t, parts, child);
  }

  lemma {:induction false} WantedDefault(t: Table, rs: seq<Redirection>, s: Stream)
    requires Standard(s) in t && !Redirects(rs, s)
    ensures Wanted(t, rs, s) == t[Standard(s)]
  {
    if rs != [] {
      assert rs[|rs| - 1].stream != s;
      assert forall k :: 0 <= k < |rs| - 1 ==> rs[..|rs| - 1][k] == rs[k];
      WantedDefault(t, rs[..|rs| - 1], s);
    }
  }

  /** The three calls of a child on the shell's table. */
  function AfterCalls(piped: Table, unused: nat, used: nat, stream: nat): Table {
    Close(Dup2(Close(piped, unused), used, stream), used)
  }

  /** What the choreography needs of the shell's own table, exactly: the second child reads from the pipe
      if and only if standard input was open, and the first writes to it if and only if standard input or
      standard output was. Otherwise the end is already on the stream's descriptor and is closed there. */
  lemma EndsAttach(u: Setup)
    requires u.read == LowestFree(u.before) && u.write == LowestFree(u.before[u.read := PipeReadEnd])
    ensures var reader := AfterCalls(PipedTable(u), u.write, u.read, STDIN);
            (STDIN in reader && reader[STDIN] == PipeReadEnd) <==> STDIN in u.before
    ensures var writer := AfterCalls(PipedTable(u), u.read, u.write, STDOUT);
            (STDOUT in writer && writer[STDOUT] == PipeWriteEnd) <==> STDIN in u.before || STDOUT in u.before
  {
    assert u.read == STDIN <==> STDIN !in u.before;
    var next := u.before[u.read := PipeReadEnd];
    assert STDIN in next <==> STDIN in u.before || u.read == STDIN;
    assert STDOUT in next <==> STDOUT in u.before || u.read == STDOUT;
    assert STDIN in u.before && STDOUT !in u.before ==> u.read == STDOUT;
  }

  // ---- Every run comes to an end ------------------------------------------------------------------------

  function ShellRank(pc: ShellPc): nat {
    match pc
    case Piped => 4
    case Forked1 => 3
    case Forked2 => 2
    case ClosedRead => 1
    case ClosedBoth => 0
  }

  function CommandRank(c: CommandPc): nat {
    match c
    case Started(_) => 2
    case Running => 1
    case _ => 0
  }

  function ChildRank(c: Child): nat {
    match c.pc
    case Unborn => 7
    case Born => 7
    case ClosedOther => 6
    case Attached => 5
    case ClosedOwn => 4
    case Waiting => 1 + CommandRank(c.command)
    case Exited => 0
  }

  function Rank(p: Processes): nat {
    ShellRank(p.shell) + ChildRank(p.first) + ChildRank(p.second)
  }

  lemma ChildRanks(r: Role, c: Child, refused: bool)
    requires Forks(c)
    ensures ChildCanStep(c) ==> ChildRank(ChildNext(r, c, refused)) < ChildRank(c)
    ensures CommandCanStep(c) ==> ChildRank(CommandNext(c)) < ChildRank(c)
  {
  }

  /** Every step brings the pipeline closer to its end. */
  lemma RankFalls(u: Setup, p: Processes, a: Actor, refused: bool)
    requires PipelineInv(u, p) && CanStep(p, a)
    ensures Rank(StepOf(u, p, a, refused)) < Rank(p)
  {
    match a
    case First => ChildRanks(FirstRole(u), p.first, refused);
    case Second => ChildRanks(SecondRole(u), p.second, refused);
    case Command1 => ChildRanks(FirstRole(u), p.first, refused);
    case Command2 => ChildRanks(SecondRole(u), p.second, refused);
    case Shell =>
  }

  /** A run has at most as many steps as its start has rank. */
  lemma {:induction false} RunsAreBounded(u: Setup, p: Processes, moves: seq<Move>)
    requires NewEnds(u) && PipelineInv(u, p) && Allowed(u, p, moves)
    ensures |moves| + Rank(Execute(u, p, moves)) <= Rank(p)
    decreases |moves|
  {
    if moves != [] {
      PipelineStep(u, p, moves[0].actor, moves[0].refused);
      RankFalls(u, p, moves[0].actor, moves[0].refused);
      RunsAreBounded(u, StepOf(u, p, moves[0].actor, moves[0].refused), moves[1..]);
    }
  }

  /** A second command that reads its input to the end: it ends only when nobody can write to it any more. */
  ghost predicate CanMove(p: Processes, a: Actor) {
    CanStep(p, a) && (a == Command2 && p.second.command == Running ==> !Held(p, PipeWriteEnd))
  }

  /** Both children have exited, their commands before them, the shell has closed both ends, and nobody is left
      with either. */
  ghost predicate Finished(p: Processes) {
    && p.shell == ClosedBoth && p.first.pc == Exited && p.second.pc == Exited
    && (p.first.command == NotForked || p.first.command == Ended)
    && (p.second.command == NotForked || p.second.command == Ended)
    && !Held(p, PipeWriteEnd) && !Held(p, PipeReadEnd)
  }

  /** Somebody can always move until the pipeline has finished, even if the second command waits for the end of
      its input. */
  lemma SomeoneMoves(u: Setup, p: Processes) returns (a: Actor)
    requires GoodSetup(u) && PipelineInv(u, p)
    ensures Finished(p) || CanMove(p, a)
  {
    WhoHolds(u, p);
    a := if p.shell != ClosedBoth then Shell
         else if ChildCanStep(p.first) then First
         else if CommandCanStep(p.first) then Command1
         else if ChildCanStep(p.second) then Second
         else Command2;
  }

  /** Steps of a run in which the second command waits for the end of its input. */
  ghost predicate Patient(u: Setup, p: Processes, moves: seq<Move>)
    requires Allowed(u, p, moves)
    decreases |moves|
  {
    moves == []
    || (&& CanMove(p, moves[0].actor)
        && Patient(u, StepOf(u, p, moves[0].actor, moves[0].refused), moves[1..]))
  }

  lemma {:induction false} RunToEnd(u: Setup, p: Processes) returns (moves: seq<Move>)
    requires GoodSetup(u) && PipelineInv(u, p)
    ensures Allowed(u, p, moves) && Patient(u, p, moves) && Finished(Execute(u, p, moves))
    decreases Rank(p)
  {
    var a := SomeoneMoves(u, p);
    if Finished(p) {
      moves := [];
    } else {
      PipelineStep(u, p, a, false);
      RankFalls(u, p, a, false);
      var rest := RunToEnd(u, StepOf(u, p, a, false));
      moves := [Move(a, false)] + rest;
      assert moves[1..] == rest;
    }
  }

  /** Progress. No run has more than eighteen steps; where nobody can move, even if the second command ends only
      at the end of its input, everything has finished and nobody holds either end; and from every reachable
      state some run leads there. */
  lemma PipelineEnds(u: Setup, moves: seq<Move>)
    requires GoodSetup(u) && Allowed(u, AfterPipe(u), moves)
    ensures |moves| <= 18
    ensures var p := Execute(u, AfterPipe(u), moves);
            && ((forall a: Actor :: !CanMove(p, a)) ==> Finished(p))
            && exists rest :: Allowed(u, p, rest) && Patient(u, p, rest) && Finished(Execute(u, p, rest))
  {
    RunsAreBounded(u, AfterPipe(u), moves);
    PipelineRun(u, AfterPipe(u), moves);
    var p := Execute(u, AfterPipe(u), moves);
    var a := SomeoneMoves(u, p);
    var rest := RunToEnd(u, p);
  }
}
