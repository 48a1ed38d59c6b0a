/** execute_command_main: separating a command's words from its redirections, and running it. */
module CommandLine {
  import opened Descriptors
  import Tokenizer

  const MAX_ARGS: nat := 64

  // ---- Scanning the arguments -----------------------------------------------------------------------

  predicate IsOperator(word: string) {
    word == "<" || word == ">" || word == ">>" || word == "2>"
  }

  function Redirect(operator: string, path: string): Redirection
    requires IsOperator(operator)
  {
    if operator == "<" then Redirection(Input, path, ReadOnly)
    else if operator == ">" then Redirection(Output, path, Truncate)
    else if operator == ">>" then Redirection(Output, path, AppendTo)
    else Redirection(Error, path, Truncate)
  }

  /** The words and redirections found; `complete` is false when an operator has no file name after it. */
  datatype Scan = Scan(words: seq<string>, redirs: seq<Redirection>, complete: bool)

  /** The scan with `room` slots left for words. It stops when they are used up, whatever follows. */
  function ScanArgs(argv: seq<string>, room: nat): Scan {
    if argv == [] || room == 0 then Scan([], [], true)
    else if IsOperator(argv[0]) then
      if |argv| == 1 then Scan([], [], false)
      else
        var rest := ScanArgs(argv[2..], room);
        rest.(redirs := [Redirect(argv[0], argv[1])] + rest.redirs)
    else
      var rest := ScanArgs(argv[1..], room - 1);
      rest.(words := [argv[0]] + rest.words)
  }

  /** What was found so far, followed by what the scan of the rest finds. */
  function Prepend(words: seq<string>, redirs: seq<Redirection>, rest: Scan): Scan {
    Scan(words + rest.words, redirs + rest.redirs, rest.complete)
  }

  /** The redirections whose files can be usable, up to the first that cannot. */
  function Openable(rs: seq<Redirection>, canOpen: Redirection -> bool): (prefix: seq<Redirection>)
    ensures |prefix| <= |rs| && prefix == rs[..|prefix|]
    ensures forall k :: 0 <= k < |prefix| ==> canOpen(prefix[k])
    ensures |prefix| < |rs| ==> !canOpen(rs[|prefix|])
  {
    if rs == [] || !canOpen(rs[0]) then [] else [rs[0]] + Openable(rs[1..], canOpen)
  }

  // ---- The command as typed -------------------------------------------------------------------------

  datatype Part = Word(text: string) | To(operator: string, path: string)

  predicate GoodPart(p: Part) {
    match p
    case Word(text) => Tokenizer.Plain(text) && text !in {"<", ">", ">>", "2>"}
    case To(operator, path) => operator in {"<", ">", ">>", "2>"} && Tokenizer.Plain(path)
  }

  predicate GoodCommand(parts: seq<Part>) {
    forall k :: 0 <= k < |parts| ==> GoodPart(parts[k])
  }

  function Words(parts: seq<Part>): seq<string> {
    if parts == [] then [] else (if parts[0].Word? then [parts[0].text] else []) + Words(parts[1..])
  }

  function Redirections(parts: seq<Part>): seq<Redirection>
    requires GoodCommand(parts)
  {
    if parts == [] then []
    else
      assert GoodPart(parts[0]);
      (if parts[0].To? then [Redirect(parts[0].operator, parts[0].path)] else []) + Redirections(parts[1..])
  }

  function Render(parts: seq<Part>): seq<string> {
    if parts == [] then []
    else (match parts[0] case Word(text) => [text] case To(operator, path) => [operator, path]) + Render(parts[1..])
  }

  /** The parts up to and including the `room`-th word. */
  function Kept(parts: seq<Part>, room: nat): (kept: seq<Part>)
    ensures |kept| <= |parts| && kept == parts[..|kept|]
  {
    if parts == [] || room == 0 then []
    else [parts[0]] + Kept(parts[1..], if parts[0].Word? then room - 1 else room)
  }

  lemma {:induction false} ScanRender(parts: seq<Part>, room: nat)
    requires GoodCommand(parts)
    ensures var kept := Kept(parts, room);
            ScanArgs(Render(parts), room) == Scan(Words(kept), Redirections(kept), true)
  {
    if parts != [] && room > 0 {
      var argv := Render(parts);
      assert GoodPart(parts[0]);
      assert GoodCommand(parts[1..]);
      var room' := if parts[0].Word? then room - 1 else room;
      ScanRender(parts[1..], room');
      var kept := Kept(parts, room);
      assert kept[1..] == Kept(parts[1..], room');
      match parts[0]
      case Word(text) =>
        assert argv[1..] == Render(parts[1..]);
      case To(operator, path) =>
        assert argv[2..] == Render(parts[1..]);
    }
  }

  /** Nothing is dropped exactly when the words fit, and no part follows a word in the last slot. */
  lemma {:induction false} KeptAll(parts: seq<Part>, room: nat)
    requires parts != []
    ensures Kept(parts, room) == parts
            <==> |Words(parts)| < room || (|Words(parts)| == room && parts[|parts| - 1].Word?)
  {
    if room > 0 && |parts| > 1 {
      KeptAll(parts[1..], if parts[0].Word? then room - 1 else room);
    }
    if |parts| == 1 {
      assert Words(parts[1..]) == [];
    }
    WordsAtLeast(parts);
  }

  lemma {:induction false} WordsAtLeast(parts: seq<Part>)
    ensures parts != [] && parts[|parts| - 1].Word? ==> |Words(parts)| > 0
  {
    if |parts| > 1 {
      WordsAtLeast(parts[1..]);
    }
  }

  lemma {:induction false} PartsCount(parts: seq<Part>)
    requires GoodCommand(parts)
    ensures |Words(parts)| + |Redirections(parts)| == |parts|
  {
    if parts != [] {
      PartsCount(parts[1..]);
    }
  }

  lemma {:induction false} RenderPlain(parts: seq<Part>)
    requires GoodCommand(parts)
    ensures forall k :: 0 <= k < |Render(parts)| ==> Tokenizer.Plain(Render(parts)[k])
  {
    if parts != [] {
      assert GoodPart(parts[0]);
      RenderPlain(parts[1..]);
    }
  }

  /** Command round trip. A command printed with single spaces and a newline, tokenized and scanned, gives
      back its words and redirections in order, exactly when it has fewer than 63 words, or 63 with
      nothing after the last. */
  lemma CommandRoundTrip(parts: seq<Part>)
    requires GoodCommand(parts) && parts != []
    ensures var line := Tokenizer.Join(Render(parts)) + "\n";
            ScanArgs(Tokenizer.Tokens(line), MAX_ARGS - 1) == Scan(Words(parts), Redirections(parts), true)
            <==> |Words(parts)| < 63 || (|Words(parts)| == 63 && parts[|parts| - 1].Word?)
  {
    RenderPlain(parts);
    Tokenizer.JoinTokens(Render(parts), "\n");
    ScanRender(parts, MAX_ARGS - 1);
    KeptAll(parts, MAX_ARGS - 1);
    var kept := Kept(parts, MAX_ARGS - 1);
    PartsCount(parts);
    PartsCount(kept);
  }

  // ---- Running a command ----------------------------------------------------------------------------

  datatype ExecResult =
    | Refused                                              // a file name missing, or an open that failed
    | ForkFailed
    | Ran(child: Table, args: seq<string>)                 // the child's table and arguments at execvp

  class Process {
    var table: Table

    constructor (table: Table)
      ensures this.table == table
    {
      this.table := table;
    }

    /** open: the lowest free descriptor, or nothing when the file cannot be usable. */
    method Open(r: Redirection, canOpen: Redirection -> bool) returns (ok: bool, fd: nat)
      modifies this
      ensures ok == canOpen(r)
      ensures ok ==> fd == LowestFree(old(table)) && table == old(table)[fd := File(r.path, r.mode)]
      ensures !ok ==> table == old(table)
    {
      ok, fd := canOpen(r), 0;
      if ok {
        fd := LowestFree(table);
        table := table[fd := File(r.path, r.mode)];
      }
    }

    /** An operator and the file name after it: opens the file and sets the stream's descriptor, or fails
        when the name is missing or the file cannot be opened. */
    method TakeRedirection(argv: seq<string>, at: nat, found: Opened, canOpen: Redirection -> bool,
                           ghost all: Scan, ghost words: seq<string>, ghost redirs: seq<Redirection>,
                           ghost room: nat, ghost initial: Table)
      returns (ok: bool, files: Opened, i: nat, ghost redirs': seq<Redirection>)
      requires Scanning(all, words, redirs, argv, at, room, canOpen) && room > 0
      requires at < |argv| && IsOperator(argv[at])
      requires found == OpenAll(initial, redirs) && found.table == table
      modifies this
      ensures ok ==>
                && i == at + 2 && Scanning(all, words, redirs', argv, i, room, canOpen)
                && files == OpenAll(initial, redirs') && files.table == table
      ensures !ok ==>
                && table == OpenAll(initial, Openable(all.redirs, canOpen)).table
                && !(Openable(all.redirs, canOpen) == all.redirs && all.complete)
    {
      ScanOperator(all, words, redirs, argv, at, room, canOpen);
      files, redirs', i := found, redirs, at + 1;
      if i == |argv| {
        return false, files, i, redirs';
      }
      var r := Redirect(argv[at], argv[i]);
      var opens, fd := Open(r, canOpen);
      if !opens {
        return false, files, i, redirs';
      }
      files := Assign(files, r.stream, fd).(table := table);
      OpenSnoc(initial, redirs, r);
      redirs' := redirs + [r];
      i := i + 1;
      ok := true;
    }

    /** The loop of execute_command_main: files are opened as their operators are met, and the loop gives up
        at the first that is missing or cannot be opened. */
    method Prepare(argv: seq<string>, canOpen: Redirection -> bool)
      returns (ok: bool, files: Opened, words: seq<string>)
      modifies this
      ensures var scan := ScanArgs(argv, MAX_ARGS - 1);
              var usable := Openable(scan.redirs, canOpen);
              && table == OpenAll(old(table), usable).table
              && (ok <==> usable == scan.redirs && scan.complete)
              && (ok ==> files == OpenAll(old(table), usable) && words == scan.words)
    {
      ghost var initial, all := table, ScanArgs(argv, MAX_ARGS - 1);
      ghost var redirs: seq<Redirection> := [];
      files, words := Opened(table, STDIN, STDOUT, STDERR), [];
      var args := new string[MAX_ARGS](_ => "");
      var i, j := 0, 0;
      assert argv[0..] == argv && args[..0] == [];
      while i < |argv| && j < MAX_ARGS - 1
        invariant 0 <= i <= |argv| && 0 <= j <= MAX_ARGS - 1
        invariant Scanning(all, args[..j], redirs, argv, i, MAX_ARGS - 1 - j, canOpen)
        invariant files == OpenAll(initial, redirs) && files.table == table
        decreases |argv| - i
      {
        if IsOperator(argv[i]) {
          var goes;
          goes, files, i, redirs :=
            TakeRedirection(argv, i, files, canOpen, all, args[..j], redirs, MAX_ARGS - 1 - j, initial);
          if !goes {
            return false, files, words;
          }
        } else {
          ScanWord(all, args[..j], redirs, argv, i, MAX_ARGS - 1 - j);
          StoreWord(args, j, argv[i]);
          j := j + 1;
          i := i + 1;
        }
      }
      ScanEnds(all, args[..j], redirs, argv, i, MAX_ARGS - 1 - j, canOpen);
      ok, words := true, args[..j];
    }

    /** execute_command_main. `canOpen` and `canFork` say which calls the system lets succeed. */
    method ExecuteCommand(argv: seq<string>, canOpen: Redirection -> bool, canFork: bool) returns (result: ExecResult)
      modifies this
      ensures var scan := ScanArgs(argv, MAX_ARGS - 1);
              var usable := Openable(scan.redirs, canOpen);
              var files := OpenAll(old(table), usable);
              if usable != scan.redirs || !scan.complete then result == Refused && table == files.table
              else if !canFork then result == ForkFailed && table == files.table
              else result == Ran(ChildTable(files), scan.words) && table == ParentTable(files)
    {
      var ok, files, words := Prepare(argv, canOpen);
      if !ok {
        return Refused;
      }
      if !canFork {
        return ForkFailed;
      }
      result := Ran(ChildTable(files), words);
      table := ParentTable(files);
    }
  }

  method StoreWord(args: array<string>, j: nat, word: string)
    requires j < args.Length
    modifies args
    ensures args[..j + 1] == old(args[..j]) + [word]
  {
    args[j] := word;
  }

  /** Setting input_fd, output_fd or error_fd. */
  function Assign(o: Opened, s: Stream, fd: nat): Opened {
    match s
    case Input => o.(input := fd)
    case Output => o.(output := fd)
    case Error => o.(error := fd)
  }

  lemma OpenSnoc(t: Table, rs: seq<Redirection>, r: Redirection)
    ensures OpenAll(t, rs + [r]) == OpenOne(OpenAll(t, rs), r)
  {
    assert (rs + [r])[..|rs|] == rs;
  }

  /** What the loop has found and opened so far, with what it is still to find, is the whole scan. */
  ghost predicate Scanning(all: Scan, words: seq<string>, redirs: seq<Redirection>, argv: seq<string>, i: nat,
                           room: nat, canOpen: Redirection -> bool) {
    && i <= |argv|
    && all == Prepend(words, redirs, ScanArgs(argv[i..], room))
    && forall k :: 0 <= k < |redirs| ==> canOpen(redirs[k])
  }

  lemma ScanEnds(all: Scan, words: seq<string>, redirs: seq<Redirection>, argv: seq<string>, i: nat, room: nat,
                 canOpen: Redirection -> bool)
    requires Scanning(all, words, redirs, argv, i, room, canOpen) && (i == |argv| || room == 0)
    ensures all == Scan(words, redirs, true) && Openable(redirs, canOpen) == redirs
  {
    EveryFileOpens(redirs, canOpen);
  }

  /** The scan at an operator: what is found if its file opens, and what is opened if the scan stops here. */
  lemma ScanOperator(all: Scan, words: seq<string>, redirs: seq<Redirection>, argv: seq<string>, i: nat, room: nat,
                     canOpen: Redirection -> bool)
    requires i < |argv| && room > 0 && IsOperator(argv[i])
    requires all == Prepend(words, redirs, ScanArgs(argv[i..], room))
    requires forall k :: 0 <= k < |redirs| ==> canOpen(redirs[k])
    ensures i + 1 == |argv| ==> !all.complete && Openable(all.redirs, canOpen) == redirs
    ensures i + 1 < |argv| ==>
              var r := Redirect(argv[i], argv[i + 1]);
              && all == Prepend(words, redirs + [r], ScanArgs(argv[i + 2..], room))
              && (!canOpen(r) ==> Openable(all.redirs, canOpen) == redirs && redirs != all.redirs)
  {
    if i + 1 == |argv| {
      assert all.redirs == redirs + [];
      OpenableAll(redirs, [], canOpen);
    } else {
      var r := Redirect(argv[i], argv[i + 1]);
      var rest := ScanArgs(argv[i + 2..], room);
      assert argv[i..][2..] == argv[i + 2..];
      assert redirs + ([r] + rest.redirs) == (redirs + [r]) + rest.redirs;
      if !canOpen(r) {
        OpenableAll(redirs, [r] + rest.redirs, canOpen);
        assert |all.redirs| > |redirs|;
      }
    }
  }

  lemma ScanWord(all: Scan, words: seq<string>, redirs: seq<Redirection>, argv: seq<string>, i: nat, room: nat)
    requires i < |argv| && room > 0 && !IsOperator(argv[i])
    requires all == Prepend(words, redirs, ScanArgs(argv[i..], room))
    ensures all == Prepend(words + [argv[i]], redirs, ScanArgs(argv[i + 1..], room - 1))
  {
    var rest := ScanArgs(argv[i + 1..], room - 1);
    assert argv[i..][1..] == argv[i + 1..];
    assert words + ([argv[i]] + rest.words) == (words + [argv[i]]) + rest.words;
  }

  lemma {:induction false} OpenableAll(rs: seq<Redirection>, rest: seq<Redirection>, canOpen: Redirection -> bool)
    requires forall k :: 0 <= k < |rs| ==> canOpen(rs[k])
    requires rest == [] || !canOpen(rest[0])
    ensures Openable(rs + rest, canOpen) == rs
  {
    if rs == [] {
      assert rs + rest == rest;
    } else {
      assert (rs + rest)[1..] == rs[1..] + rest;
      OpenableAll(rs[1..], rest, canOpen);
    }
  }

  /** The shell's descriptors after a command, exactly: restored when the command ran with each stream
      redirected at most once, or when it did not run and no file had been usable. */
  lemma DescriptorsRestored(t: Table, argv: seq<string>, canOpen: Redirection -> bool, canFork: bool)
    requires StandardOpen(t)
    ensures var scan := ScanArgs(argv, MAX_ARGS - 1);
            var usable := Openable(scan.redirs, canOpen);
            var files := OpenAll(t, usable);
            var runs := usable == scan.redirs && scan.complete && canFork;
            (if runs then ParentTable(files) else files.table) == t
            <==> if runs then AtMostOnce(scan.redirs) else usable == []
  {
    var usable := Openable(ScanArgs(argv, MAX_ARGS - 1).redirs, canOpen);
    ParentRestored(t, usable);
    OpenAllExtends(t, usable);
  }

  /** The scan of the typed line. */
  lemma TypedScan(parts: seq<Part>)
    requires GoodCommand(parts) && parts != [] && |Words(parts)| < 63
    ensures ScanArgs(Tokenizer.Tokens(Tokenizer.Join(Render(parts)) + "\n"), MAX_ARGS - 1)
         == Scan(Words(parts), Redirections(parts), true)
  {
    CommandRoundTrip(parts);
  }

  lemma EveryFileOpens(rs: seq<Redirection>, canOpen: Redirection -> bool)
    requires forall k :: 0 <= k < |rs| ==> canOpen(rs[k])
    ensures Openable(rs, canOpen) == rs
  {
    OpenableAll(rs, [], canOpen);
    assert rs + [] == rs;
  }

  /** Part `k` is the last of the command with one of these operators. */
  ghost predicate LastOf(parts: seq<Part>, k: nat, operators: set<string>) {
    && k < |parts| && parts[k].To? && parts[k].operator in operators
    && forall j :: k < j < |parts| && parts[j].To? ==> parts[j].operator !in operators
  }

  ghost predicate NoneOf(parts: seq<Part>, operators: set<string>) {
    forall j :: 0 <= j < |parts| && parts[j].To? ==> parts[j].operator !in operators
  }

  lemma {:induction false} RedirectionsSnoc(parts: seq<Part>, p: Part)
    requires GoodCommand(parts + [p])
    ensures GoodCommand(parts) && GoodPart(p)
    ensures Redirections(parts + [p])
         == Redirections(parts) + if p.To? then [Redirect(p.operator, p.path)] else []
  {
    assert forall k :: 0 <= k < |parts| ==> (parts + [p])[k] == parts[k];
    assert (parts + [p])[|parts|] == p;
    if parts == [] {
      assert parts + [p] == [p] && [p][1..] == [];
    } else {
      assert (parts + [p])[1..] == parts[1..] + [p];
      RedirectionsSnoc(parts[1..], p);
    }
  }

  /** The operators of a stream. */
  ghost predicate OperatorsOf(operators: set<string>, s: Stream) {
    forall operator, path :: IsOperator(operator) ==> (Redirect(operator, path).stream == s <==> operator in operators)
  }

  /** The last part with an operator of the stream decides where the stream goes. */
  lemma {:induction false} LastWins(t: Table, parts: seq<Part>, operators: set<string>, s: Stream)
    requires GoodCommand(parts) && Standard(s) in t && OperatorsOf(operators, s)
    ensures forall k: nat :: LastOf(parts, k, operators) ==>
              GoodPart(parts[k])
              && var r := Redirect(parts[k].operator, parts[k].path);
                 Wanted(t, Redirections(parts), s) == File(r.path, r.mode)
    ensures NoneOf(parts, operators) ==> Wanted(t, Redirections(parts), s) == t[Standard(s)]
  {
    if parts != [] {
      var init, p := parts[..|parts| - 1], parts[|parts| - 1];
      assert parts == init + [p];
      RedirectionsSnoc(init, p);
      LastWins(t, init, operators, s);
      if p.To? {
        var r := Redirect(p.operator, p.path);
        assert (Redirections(init) + [r])[..|Redirections(init)|] == Redirections(init);
      }
      assert Redirections(init) + [] == Redirections(init);
      forall k: nat | LastOf(parts, k, operators)
        ensures GoodPart(parts[k])
        ensures var r := Redirect(parts[k].operator, parts[k].path);
                Wanted(t, Redirections(parts), s) == File(r.path, r.mode)
      {
        if k < |init| {
          assert LastOf(init, k, operators);
        }
      }
    }
  }

  /** Descriptors 0, 1 and 2 are on the files last typed for them: read-only behind "<", truncated behind ">"
      and "2>", appended to behind ">>"; a descriptor nothing was typed for is where `t` has it. */
  ghost predicate OnTyped(t: Table, parts: seq<Part>, child: Table) {
    && 0 in child && 1 in child && 2 in child
    && (forall k: nat :: LastOf(parts, k, {"<"}) ==> child[0] == File(parts[k].path, ReadOnly))
    && (forall k: nat :: LastOf(parts, k, {">", ">>"}) ==>
          child[1] == File(parts[k].path, if parts[k].operator == ">" then Truncate else AppendTo))
    && (forall k: nat :: LastOf(parts, k, {"2>"}) ==> child[2] == File(parts[k].path, Truncate))
    && (NoneOf(parts, {"<"}) ==> 0 in t && child[0] == t[0])
    && (NoneOf(parts, {">", ">>"}) ==> 1 in t && child[1] == t[1])
    && (NoneOf(parts, {"2>"}) ==> 2 in t && child[2] == t[2])
  }

  lemma WantedIsTyped(t: Table, parts: seq<Part>, child: Table)
    requires StandardOpen(t) && GoodCommand(parts)
    requires forall s: Stream :: Standard(s) in child && child[Standard(s)] == Wanted(t, Redirections(parts), s)
    ensures OnTyped(t, parts, child)
  {
    LastWins(t, parts, {"<"}, Input);
    LastWins(t, parts, {">", ">>"}, Output);
    LastWins(t, parts, {"2>"}, Error);
    assert Standard(Input) == 0 && Standard(Output) == 1 && Standard(Error) == 2;
  }

  /** From the typed line to the running command: when every file typed opens, the child runs the typed
      words with each stream on the last file typed for it. */
  lemma TypedCommand(t: Table, parts: seq<Part>, canOpen: Redirection -> bool)
    requires StandardOpen(t) && GoodCommand(parts) && parts != []
    requires |Words(parts)| < 63
    requires forall k :: 0 <= k < |Redirections(parts)| ==> canOpen(Redirections(parts)[k])
    ensures var scan := ScanArgs(Tokenizer.Tokens(Tokenizer.Join(Render(parts)) + "\n"), MAX_ARGS - 1);
            var child := ChildTable(OpenAll(t, Openable(scan.redirs, canOpen)));
            && scan.complete && scan.words == Words(parts)
            && OnTyped(t, parts, child)
  {
    TypedScan(parts);
    EveryFileOpens(Redirections(parts), canOpen);
    ChildConnected(t, Redirections(parts));
    WantedIsTyped(t, parts, ChildTable(OpenAll(t, Redirections(parts))));
  }
}
