/** A process's descriptor table, and what redirections do to it before and after a command runs. */
module Descriptors {

  datatype Mode = ReadOnly | Truncate | AppendTo

  /** What a descriptor refers to. */
  datatype Target = Inherited(id: nat) | File(path: string, mode: Mode) | PipeReadEnd | PipeWriteEnd

  type Table = map<nat, Target>

  const STDIN: nat := 0
  const STDOUT: nat := 1
  const STDERR: nat := 2

  // ---- open, close, dup2 ----------------------------------------------------------------------------

  lemma {:induction false} InitialSegment(t: Table, n: nat)
    requires forall k: nat :: k < n ==> k in t
    ensures n <= |t|
  {
    if n > 0 {
      var smaller := t - {n - 1};
      assert t.Keys == smaller.Keys + {n - 1};
      InitialSegment(smaller, n - 1);
    }
  }

  function FreeFrom(t: Table, n: nat): (fd: nat)
    requires forall k: nat :: k < n ==> k in t
    ensures fd !in t && forall k: nat :: k < fd ==> k in t
    decreases |t| + 1 - (InitialSegment(t, n); n)
  {
    if n in t then InitialSegment(t, n + 1); FreeFrom(t, n + 1) else n
  }

  /** open and pipe return the lowest descriptor not in use. */
  function LowestFree(t: Table): (fd: nat)
    ensures fd !in t && forall k: nat :: k < fd ==> k in t
  {
    FreeFrom(t, 0)
  }

  function Close(t: Table, fd: nat): Table { t - {fd} }

  function Dup2(t: Table, from: nat, to: nat): Table {
    if from in t then t[to := t[from]] else t
  }

  // ---- Redirections -----------------------------------------------------------------------------------

  datatype Stream = Input | Output | Error

  datatype Redirection = Redirection(stream: Stream, path: string, mode: Mode)

  /** The descriptor a stream has when it is not redirected. */
  function Standard(s: Stream): nat {
    match s case Input => STDIN case Output => STDOUT case Error => STDERR
  }

  /** The table, and the variables input_fd, output_fd and error_fd. */
  datatype Opened = Opened(table: Table, input: nat, output: nat, error: nat) {
    function Fd(s: Stream): nat {
      match s case Input => input case Output => output case Error => error
    }
  }

  function OpenOne(o: Opened, r: Redirection): Opened {
    var fd := LowestFree(o.table);
    var table := o.table[fd := File(r.path, r.mode)];
    match r.stream
    case Input => o.(table := table, input := fd)
    case Output => o.(table := table, output := fd)
    case Error => o.(table := table, error := fd)
  }

  /** Opening the files of a command's redirections one after the other. */
  function OpenAll(t: Table, rs: seq<Redirection>): Opened {
    if rs == [] then Opened(t, STDIN, STDOUT, STDERR) else OpenOne(OpenAll(t, rs[..|rs| - 1]), rs[|rs| - 1])
  }

  /** One stream in the child: dup2 onto the standard descriptor, then close. */
  function Attach(t: Table, fd: nat, standard: nat): Table {
    if fd != standard then Close(Dup2(t, fd, standard), fd) else t
  }

  function ChildTable(o: Opened): Table {
    Attach(Attach(Attach(o.table, o.input, STDIN), o.output, STDOUT), o.error, STDERR)
  }

  function Release(t: Table, fd: nat, standard: nat): Table {
    if fd != standard then Close(t, fd) else t
  }

  /** The parent after the wait. */
  function ParentTable(o: Opened): Table {
    Release(Release(Release(o.table, o.input, STDIN), o.output, STDOUT), o.error, STDERR)
  }

  // ---- Which files the streams end up on ---------------------------------------------------------------

  predicate Redirects(rs: seq<Redirection>, s: Stream) {
    exists k :: 0 <= k < |rs| && rs[k].stream == s
  }

  /** What a stream is connected to when the command runs: its last redirection wins. */
  function Wanted(t: Table, rs: seq<Redirection>, s: Stream): Target
    requires Standard(s) in t
  {
    if rs == [] then t[Standard(s)]
    else
      var r := rs[|rs| - 1];
      if r.stream == s then File(r.path, r.mode) else Wanted(t, rs[..|rs| - 1], s)
  }

  predicate StandardOpen(t: Table) {
    STDIN in t && STDOUT in t && STDERR in t
  }

  /** The number of streams redirected at least once. */
  function Redirected(rs: seq<Redirection>): nat {
    (if Redirects(rs, Input) then 1 else 0)
    + (if Redirects(rs, Output) then 1 else 0)
    + (if Redirects(rs, Error) then 1 else 0)
  }

  /** The opened table extends the old one by one new descriptor per redirection; each stream's variable
      names the descriptor of its last redirection, or its standard one. */
  ghost predicate Extends(t: Table, rs: seq<Redirection>, o: Opened)
    requires StandardOpen(t)
  {
    && (forall fd :: fd in t ==> fd in o.table && o.table[fd] == t[fd])
    && |o.table| == |t| + |rs|
    && (forall s: Stream :: o.Fd(s) in o.table && o.table[o.Fd(s)] == Wanted(t, rs, s))
    && (forall s: Stream :: if Redirects(rs, s) then o.Fd(s) !in t else o.Fd(s) == Standard(s))
    && (forall s, u: Stream :: s != u ==> o.Fd(s) != o.Fd(u))
  }

  lemma {:induction false} OpenAllExtends(t: Table, rs: seq<Redirection>)
    requires StandardOpen(t)
    ensures Extends(t, rs, OpenAll(t, rs))
  {
    if rs != [] {
      var init, r := rs[..|rs| - 1], rs[|rs| - 1];
      OpenAllExtends(t, init);
      OpenOneExtends(t, init, OpenAll(t, init), r);
      assert rs == init + [r];
    }
  }

  lemma OpenOneExtends(t: Table, rs: seq<Redirection>, o: Opened, r: Redirection)
    requires StandardOpen(t) && Extends(t, rs, o)
    ensures Extends(t, rs + [r], OpenOne(o, r))
  {
    var fd := LowestFree(o.table);
    var o' := OpenOne(o, r);
    assert (rs + [r])[..|rs|] == rs;
    assert forall s: Stream :: o.Fd(s) != fd;
    forall s: Stream
      ensures Redirects(rs + [r], s) <==> Redirects(rs, s) || r.stream == s
    {
      assert (rs + [r])[|rs|] == r;
      if Redirects(rs, s) {
        var k :| 0 <= k < |rs| && rs[k].stream == s;
        assert (rs + [r])[k].stream == s;
      }
    }
    assert o'.table.Keys == o.table.Keys + {fd};
    forall s: Stream
      ensures o'.Fd(s) == if s == r.stream then fd else o.Fd(s)
    {
    }
  }

  /** No stream is redirected twice. */
  predicate AtMostOnce(rs: seq<Redirection>) {
    forall i, j :: 0 <= i < j < |rs| ==> rs[i].stream != rs[j].stream
  }

  /** A stream redirected twice means more redirections than redirected streams. */
  lemma {:induction false} RedirectedCount(rs: seq<Redirection>)
    ensures Redirected(rs) <= |rs|
    ensures Redirected(rs) == |rs| <==> AtMostOnce(rs)
  {
    if rs != [] {
      var init, r := rs[..|rs| - 1], rs[|rs| - 1];
      RedirectedCount(init);
      forall s: Stream
        ensures Redirects(rs, s) <==> Redirects(init, s) || r.stream == s
      {
        if Redirects(init, s) {
          var k :| 0 <= k < |init| && init[k].stream == s;
          assert rs[k].stream == s;
        }
        if Redirects(rs, s) && r.stream != s {
          var k :| 0 <= k < |rs| && rs[k].stream == s;
          assert init[k].stream == s;
        }
      }
      if AtMostOnce(rs) {
        assert forall i, j :: 0 <= i < j < |init| ==> init[i].stream != init[j].stream;
        assert forall k :: 0 <= k < |init| ==> init[k] == rs[k] && rs[k].stream != r.stream;
      } else if AtMostOnce(init) {
        var i, j :| 0 <= i < j < |rs| && rs[i].stream == rs[j].stream;
        assert j == |init| ==> init[i].stream == r.stream;
        assert j < |init| ==> init[i].stream != init[j].stream;
      }
    }
  }

  // ---- Restoration ------------------------------------------------------------------------------------

  /** Everything in `t` is in `u`. */
  ghost predicate Within(t: Table, u: Table) {
    forall fd :: fd in t ==> fd in u && u[fd] == t[fd]
  }

  lemma ReleaseOne(t: Table, u: Table, fd: nat, standard: nat)
    requires Within(t, u) && fd in u && (fd != standard ==> fd !in t)
    ensures var v := Release(u, fd, standard);
            && Within(t, v)
            && |v| == |u| - (if fd != standard then 1 else 0)
            && (forall k :: k in v <==> k in u && (k != fd || fd == standard))
  {
    CloseSize(u, fd);
  }

  lemma ReleaseThree(t: Table, u: Table, input: nat, output: nat, error: nat)
    requires StandardOpen(t) && Within(t, u)
    requires input in u && (input != STDIN ==> input !in t)
    requires output in u && (output != STDOUT ==> output !in t)
    requires error in u && (error != STDERR ==> error !in t)
    requires input != output && output != error && input != error
    ensures var v := ParentTable(Opened(u, input, output, error));
            && Within(t, v)
            && |v| == |u| - (if input != STDIN then 1 else 0) - (if output != STDOUT then 1 else 0)
                          - (if error != STDERR then 1 else 0)
  {
    var u1 := Release(u, input, STDIN);
    var u2 := Release(u1, output, STDOUT);
    ReleaseOne(t, u, input, STDIN);
    ReleaseOne(t, u1, output, STDOUT);
    ReleaseOne(t, u2, error, STDERR);
  }

  /** Extends, stream by stream. */
  lemma Streams(t: Table, rs: seq<Redirection>, o: Opened, s: Stream)
    requires StandardOpen(t) && Extends(t, rs, o)
    ensures o.Fd(s) in o.table && o.table[o.Fd(s)] == Wanted(t, rs, s)
    ensures o.Fd(s) != Standard(s) <==> Redirects(rs, s)
    ensures o.Fd(s) != Standard(s) ==> o.Fd(s) !in t
  {
  }

  lemma ReleasedSize(o: Opened, t: Table, rs: seq<Redirection>)
    requires StandardOpen(t) && Extends(t, rs, o)
    ensures Within(t, ParentTable(o))
    ensures |ParentTable(o)| == |t| + |rs| - Redirected(rs)
  {
    Streams(t, rs, o, Input);
    Streams(t, rs, o, Output);
    Streams(t, rs, o, Error);
    assert o.Fd(Input) != o.Fd(Output) && o.Fd(Output) != o.Fd(Error) && o.Fd(Input) != o.Fd(Error);
    ReleaseThree(t, o.table, o.input, o.output, o.error);
  }

  lemma CloseSize(t: Table, fd: nat)
    ensures |Close(t, fd)| == |t| - if fd in t then 1 else 0
  {
    if fd in t {
      assert t.Keys == Close(t, fd).Keys + {fd};
    } else {
      assert Close(t, fd) == t;
    }
  }

  /** A table with everything of `t` and no more entries is `t`. */
  lemma SameSize(t: Table, u: Table)
    requires Within(t, u)
    ensures |u| == |t| <==> u == t
    ensures |u| >= |t|
  {
    assert t.Keys <= u.Keys;
    var extra := u.Keys - t.Keys;
    assert u.Keys == t.Keys + extra;
    assert |u.Keys| == |t.Keys| + |extra|;
    if |u| == |t| {
      assert extra == {};
    }
  }

  /** Descriptor restoration. With the standard descriptors open, the parent's table after the wait is the
      one before if and only if no stream was redirected more than once; nothing it had is ever lost. */
  lemma ParentRestored(t: Table, rs: seq<Redirection>)
    requires StandardOpen(t)
    ensures ParentTable(OpenAll(t, rs)) == t <==> AtMostOnce(rs)
    ensures Within(t, ParentTable(OpenAll(t, rs)))
  {
    OpenAllExtends(t, rs);
    ReleasedSize(OpenAll(t, rs), t, rs);
    RedirectedCount(rs);
    SameSize(t, ParentTable(OpenAll(t, rs)));
  }

  /** dup2 and close of one stream. */
  lemma AttachOne(u: Table, fd: nat, standard: nat)
    requires fd in u && standard in u
    ensures var v := Attach(u, fd, standard);
            && standard in v && v[standard] == u[fd]
            && (forall k :: k in v <==> k in u && (k != fd || fd == standard))
            && (forall k :: k in v && k != standard ==> v[k] == u[k])
  {
  }

  lemma AttachThree(t: Table, u: Table, input: nat, output: nat, error: nat)
    requires StandardOpen(t) && Within(t, u)
    requires input in u && (input != STDIN ==> input !in t)
    requires output in u && (output != STDOUT ==> output !in t)
    requires error in u && (error != STDERR ==> error !in t)
    requires input != output && output != error && input != error
    ensures var o := Opened(u, input, output, error);
            var v := ChildTable(o);
            && v.Keys == ParentTable(o).Keys
            && STDIN in v && STDOUT in v && STDERR in v
            && v[STDIN] == u[input] && v[STDOUT] == u[output] && v[STDERR] == u[error]
            && (forall fd :: fd in t && fd > STDERR ==> fd in v && v[fd] == t[fd])
  {
    var u1 := Attach(u, input, STDIN);
    var u2 := Attach(u1, output, STDOUT);
    AttachOne(u, input, STDIN);
    AttachOne(u1, output, STDOUT);
    AttachOne(u2, error, STDERR);
    assert Release(u, input, STDIN).Keys == u1.Keys;
    assert Release(Release(u, input, STDIN), output, STDOUT).Keys == u2.Keys;
  }

  /** What the child does to the table, one stream at a time. */
  lemma ChildShape(t: Table, rs: seq<Redirection>, o: Opened)
    requires StandardOpen(t) && Extends(t, rs, o)
    ensures ChildTable(o).Keys == ParentTable(o).Keys
    ensures forall s: Stream :: Standard(s) in ChildTable(o) && ChildTable(o)[Standard(s)] == Wanted(t, rs, s)
    ensures forall fd :: fd in t && fd > STDERR ==> fd in ChildTable(o) && ChildTable(o)[fd] == t[fd]
  {
    Streams(t, rs, o, Input);
    Streams(t, rs, o, Output);
    Streams(t, rs, o, Error);
    assert o.Fd(Input) != o.Fd(Output) && o.Fd(Output) != o.Fd(Error) && o.Fd(Input) != o.Fd(Error);
    AttachThree(t, o.table, o.input, o.output, o.error);
  }

  /** The child reaches exec with each standard descriptor on its stream's last redirection, everything
      else it inherited untouched, and no further descriptor open if and only if no stream was redirected
      more than once. */
  lemma ChildConnected(t: Table, rs: seq<Redirection>)
    requires StandardOpen(t)
    ensures var child := ChildTable(OpenAll(t, rs));
            && (forall s: Stream :: Standard(s) in child && child[Standard(s)] == Wanted(t, rs, s))
            && (forall fd :: fd in t && fd > STDERR ==> fd in child && child[fd] == t[fd])
            && (child.Keys == t.Keys <==> AtMostOnce(rs))
  {
    OpenAllExtends(t, rs);
    ChildShape(t, rs, OpenAll(t, rs));
    ParentRestored(t, rs);
    ReleasedSize(OpenAll(t, rs), t, rs);
    RedirectedCount(rs);
  }
}
