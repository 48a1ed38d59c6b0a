/** The logger: whole records through partial and interrupted writes, and a level that signals may change
    at any point. */
module Logging {

  const DISABLED := 0
  const ERROR := 1
  const WARNING := 2
  const INFO := 3
  const DEBUG := 4

  const SIGRTMIN := 34
  const SIGRTMAX := 64
  const BUFFER_SIZE: nat := 256

  /** What the system does with one write: takes some bytes, is interrupted by a signal, or fails. */
  datatype WriteOutcome = Wrote(bytes: nat) | Interrupted(signo: int) | Failed

  // ---- Levels -----------------------------------------------------------------------------------------

  predicate SelectsLevel(base: int, signo: int) {
    DISABLED <= signo - base <= DEBUG
  }

  /** The level set by the last signal that selects one; INFO before any did. */
  function LevelAfter(base: int, signals: seq<int>): (level: int)
    ensures DISABLED <= level <= DEBUG
  {
    if signals == [] then INFO
    else
      var last := signals[|signals| - 1];
      if SelectsLevel(base, last) then last - base else LevelAfter(base, signals[..|signals| - 1])
  }

  /** Signal `k` is the last to select a level. */
  ghost predicate LastSelects(base: int, signals: seq<int>, k: nat) {
    && k < |signals| && 0 <= signals[k] - base <= 4
    && forall j :: k < j < |signals| ==> !(0 <= signals[j] - base <= 4)
  }

  /** The level after some signals: what the last signal from base to base + 4 selects, 3 (INFO) without one. */
  lemma {:induction false} LevelMeaning(base: int, signals: seq<int>)
    ensures forall k: nat :: LastSelects(base, signals, k) ==> LevelAfter(base, signals) == signals[k] - base
    ensures (forall j :: 0 <= j < |signals| ==> !(0 <= signals[j] - base <= 4)) ==> LevelAfter(base, signals) == 3
  {
    if signals != [] {
      var init := signals[..|signals| - 1];
      LevelMeaning(base, init);
      forall k: nat | LastSelects(base, signals, k)
        ensures LevelAfter(base, signals) == signals[k] - base
      {
        if k < |init| {
          assert LastSelects(base, init, k);
        }
      }
    }
  }

  /** The base signal used for the one asked for: that one if it and the four above it are real-time signals. */
  function BaseFor(requested: int): (base: int)
    ensures 34 <= base && base + 4 <= 64
    ensures 34 <= requested && requested + 4 <= 64 ==> base == requested
    ensures !(34 <= requested && requested + 4 <= 64) ==> base == 34
  {
    if SIGRTMIN <= requested <= SIGRTMAX - DEBUG then requested else SIGRTMIN
  }

  // ---- Records ----------------------------------------------------------------------------------------

  datatype Call = Call(threshold: int, tag: string, message: string)

  /** LOG_ERROR, LOG_WARNING, LOG_INFO and LOG_DEBUG. */
  function ErrorCall(message: string): Call { Call(ERROR, "ERROR", message) }
  function WarningCall(message: string): Call { Call(WARNING, "WARNING", message) }
  function InfoCall(message: string): Call { Call(INFO, "INFO", message) }
  function DebugCall(message: string): Call { Call(DEBUG, "DEBUG", message) }

  /** A C string of at most `size - 1` characters. */
  function Cut(s: string, size: nat): string
    requires size > 0
  {
    if |s| < size then s else s[..size - 1]
  }

  function Text(call: Call): string {
    Cut("[" + call.tag + "] " + call.message, BUFFER_SIZE)
  }

  function Record(call: Call): string {
    Text(call) + "\n"
  }

  /** The level a call saw at its own test, and at the test in log_message. */
  datatype Seen = Seen(first: int, second: int)

  predicate Passes(call: Call, seen: Seen) {
    seen.first >= call.threshold && seen.second != DISABLED
  }

  /** The records of the calls that passed both tests, end to end. */
  function Stream(calls: seq<Call>, seen: seq<Seen>): string
    requires |calls| == |seen|
  {
    if calls == [] then ""
    else
      var n := |calls| - 1;
      Stream(calls[..n], seen[..n]) + if Passes(calls[n], seen[n]) then Record(calls[n]) else ""
  }

  lemma StreamNext(start: string, calls: seq<Call>, k: nat, seen: seq<Seen>, s: Seen)
    requires k < |calls| && |seen| == k
    ensures start + Stream(calls[..k + 1], seen + [s])
         == start + Stream(calls[..k], seen) + if Passes(calls[k], s) then Record(calls[k]) else ""
  {
    assert calls[..k + 1][..k] == calls[..k] && (seen + [s])[..k] == seen;
  }

  /** The signals that arrive at the coming point between statements. */
  function Head(arriving: seq<seq<int>>): seq<int> {
    if arriving == [] then [] else arriving[0]
  }

  function Tail(arriving: seq<seq<int>>): seq<seq<int>> {
    if arriving == [] then [] else arriving[1..]
  }

  /** How many signals had been handled at a call's two tests. */
  datatype Moment = Moment(first: nat, second: nat)

  /** The call saw the levels in force at those moments; the second test is only reached past the first. */
  ghost predicate SawThen(base: int, delivered: seq<int>, call: Call, s: Seen, m: Moment) {
    && m.first <= m.second <= |delivered|
    && s.first == LevelAfter(base, delivered[..m.first])
    && s.second == if s.first >= call.threshold then LevelAfter(base, delivered[..m.second]) else DISABLED
  }

  /** Every call saw the levels in force when it made its tests, and calls are made one after the other. */
  ghost predicate SawLevels(base: int, delivered: seq<int>, from: nat, calls: seq<Call>, seen: seq<Seen>,
                            moments: seq<Moment>) {
    && |calls| == |seen| == |moments|
    && (forall k :: 0 <= k < |calls| ==> SawThen(base, delivered, calls[k], seen[k], moments[k]))
    && (forall k :: 0 <= k < |moments| ==> from <= moments[k].first)
    && (forall i, j :: 0 <= i < j < |moments| ==> moments[i].second <= moments[j].first)
  }

  lemma SawStays(base: int, delivered: seq<int>, delivered': seq<int>, call: Call, s: Seen, m: Moment)
    requires delivered <= delivered' && SawThen(base, delivered, call, s, m)
    ensures SawThen(base, delivered', call, s, m)
  {
    assert delivered'[..m.first] == delivered[..m.first] && delivered'[..m.second] == delivered[..m.second];
  }

  lemma SawNext(base: int, delivered: seq<int>, delivered': seq<int>, from: nat, calls: seq<Call>, k: nat,
                seen: seq<Seen>, moments: seq<Moment>, s: Seen, m: Moment)
    requires k < |calls| && SawLevels(base, delivered, from, calls[..k], seen, moments)
    requires from <= |delivered| && delivered <= delivered'
    requires SawThen(base, delivered', calls[k], s, m) && |delivered| <= m.first
    ensures SawLevels(base, delivered', from, calls[..k + 1], seen + [s], moments + [m])
  {
    forall i | 0 <= i <= k
      ensures SawThen(base, delivered', calls[..k + 1][i], (seen + [s])[i], (moments + [m])[i])
    {
      if i < k {
        assert SawThen(base, delivered, calls[..k][i], seen[i], moments[i]);
        SawStays(base, delivered, delivered', calls[i], seen[i], moments[i]);
      }
    }
    forall i | 0 <= i < k ensures moments[i].second <= m.first {
      assert SawThen(base, delivered, calls[..k][i], seen[i], moments[i]);
    }
  }

  /** A record is its tag, then as much of the message as fits 255 characters, then a newline, which is its
      only one unless the tag or the message has more. */
  lemma RecordShape(call: Call)
    ensures var whole := "[" + call.tag + "] " + call.message;
            var text := Record(call)[..|Record(call)| - 1];
            && Record(call)[|Record(call)| - 1] == '\n'
            && text <= whole && |text| == (if |whole| <= 255 then |whole| else 255)
            && ('\n' !in whole ==> '\n' !in text)
  {
    assert Record(call)[..|Record(call)| - 1] == Text(call);
  }

  /** The calls a program can make: LOG_ERROR, LOG_WARNING, LOG_INFO and LOG_DEBUG, in this order. */
  function LogCalls(message: string): seq<Call> {
    [ErrorCall(message), WarningCall(message), InfoCall(message), DebugCall(message)]
  }

  /** Which of the four write at a level that does not change: none at 0, the first `level` of them at 1 to 4,
      each behind its own tag. */
  lemma LevelSelects(level: int, message: string, k: nat)
    requires 0 <= level <= 4 && k < 4
    ensures Passes(LogCalls(message)[k], Seen(level, level)) <==> k < level
    ensures LogCalls(message)[k].tag == ["ERROR", "WARNING", "INFO", "DEBUG"][k]
    ensures LogCalls(message)[k].message == message
  {
  }

  function IfAtLeast(level: int, threshold: int, text: string): string {
    if level >= threshold then text else ""
  }

  /** What one call adds to the output. */
  function Written(call: Call, s: Seen): string {
    if Passes(call, s) then Record(call) else ""
  }

  lemma StreamOne(calls: seq<Call>, seen: seq<Seen>, call: Call, s: Seen)
    requires |calls| == |seen|
    ensures Stream(calls + [call], seen + [s]) == Stream(calls, seen) + Written(call, s)
  {
    assert (calls + [call])[..|calls|] == calls && (seen + [s])[..|seen|] == seen;
  }

  lemma StreamFirst(c0: Call, s0: Seen)
    ensures Stream([c0], [s0]) == Written(c0, s0)
  {
    assert [c0][..0] == [] && [s0][..0] == [];
    assert "" + Written(c0, s0) == Written(c0, s0);
  }

  lemma StreamTwo(c0: Call, c1: Call, s0: Seen, s1: Seen)
    ensures Stream([c0, c1], [s0, s1]) == Written(c0, s0) + Written(c1, s1)
  {
    StreamFirst(c0, s0);
    assert [c0] + [c1] == [c0, c1] && [s0] + [s1] == [s0, s1];
    StreamOne([c0], [s0], c1, s1);
  }

  lemma StreamFour(c0: Call, c1: Call, c2: Call, c3: Call, s0: Seen, s1: Seen, s2: Seen, s3: Seen)
    ensures Stream([c0, c1, c2, c3], [s0, s1, s2, s3])
         == Written(c0, s0) + Written(c1, s1) + Written(c2, s2) + Written(c3, s3)
  {
    StreamTwo(c0, c1, s0, s1);
    StreamOne([c0, c1], [s0, s1], c2, s2);
    assert [c0, c1] + [c2] == [c0, c1, c2] && [s0, s1] + [s2] == [s0, s1, s2];
    StreamOne([c0, c1, c2], [s0, s1, s2], c3, s3);
    assert [c0, c1, c2] + [c3] == [c0, c1, c2, c3] && [s0, s1, s2] + [s3] == [s0, s1, s2, s3];
  }

  /** What the four write one after the other when no signal is handled meanwhile: at level 3, where a logger
      starts, the first three records. */
  lemma FourCalls(base: int, delivered: seq<int>, message: string, seen: seq<Seen>, moments: seq<Moment>)
    requires SawLevels(base, delivered, |delivered|, LogCalls(message), seen, moments)
    ensures var level := LevelAfter(base, delivered);
            Stream(LogCalls(message), seen)
            == IfAtLeast(level, 1, Cut("[ERROR] " + message, 256) + "\n")
               + IfAtLeast(level, 2, Cut("[WARNING] " + message, 256) + "\n")
               + IfAtLeast(level, 3, Cut("[INFO] " + message, 256) + "\n")
               + IfAtLeast(level, 4, Cut("[DEBUG] " + message, 256) + "\n")
  {
    StreamFour(ErrorCall(message), WarningCall(message), InfoCall(message), DebugCall(message),
               seen[0], seen[1], seen[2], seen[3]);
    assert seen == [seen[0], seen[1], seen[2], seen[3]];
    Tags(message);
    WrittenAt(base, delivered, message, seen, moments, 0);
    WrittenAt(base, delivered, message, seen, moments, 1);
    WrittenAt(base, delivered, message, seen, moments, 2);
    WrittenAt(base, delivered, message, seen, moments, 3);
  }

  lemma Tags(message: string)
    ensures Text(LogCalls(message)[0]) == Cut("[ERROR] " + message, 256)
    ensures Text(LogCalls(message)[1]) == Cut("[WARNING] " + message, 256)
    ensures Text(LogCalls(message)[2]) == Cut("[INFO] " + message, 256)
    ensures Text(LogCalls(message)[3]) == Cut("[DEBUG] " + message, 256)
  {
    assert "[" + "ERROR" + "] " == "[ERROR] ";
    assert "[" + "WARNING" + "] " == "[WARNING] ";
    assert "[" + "INFO" + "] " == "[INFO] ";
    assert "[" + "DEBUG" + "] " == "[DEBUG] ";
  }

  /** Calls that start when every signal has been handled make all their tests then. */
  lemma AtTheEnd(base: int, delivered: seq<int>, calls: seq<Call>, seen: seq<Seen>, moments: seq<Moment>, k: nat)
    requires SawLevels(base, delivered, |delivered|, calls, seen, moments) && k < |calls|
    ensures moments[k] == Moment(|delivered|, |delivered|)
  {
    assert SawThen(base, delivered, calls[k], seen[k], moments[k]);
  }

  /** A call that sees one level at both its tests, or fails the first. */
  lemma WrittenIf(call: Call, s: Seen, level: int, k: nat)
    requires s.first == level && s.second == if level >= call.threshold then level else DISABLED
    requires Passes(call, Seen(level, level)) <==> k < level
    ensures Written(call, s) == IfAtLeast(level, k + 1, Record(call))
  {
  }

  lemma WrittenAt(base: int, delivered: seq<int>, message: string, seen: seq<Seen>, moments: seq<Moment>, k: nat)
    requires SawLevels(base, delivered, |delivered|, LogCalls(message), seen, moments) && k < 4
    ensures var call := LogCalls(message)[k];
            Written(call, seen[k]) == IfAtLeast(LevelAfter(base, delivered), k + 1, Text(call) + "\n")
  {
    var call, level := LogCalls(message)[k], LevelAfter(base, delivered);
    AtTheEnd(base, delivered, LogCalls(message), seen, moments, k);
    assert SawThen(base, delivered, call, seen[k], moments[k]);
    assert delivered[..moments[k].first] == delivered && delivered[..moments[k].second] == delivered;
    LevelSelects(level, message, k);
    WrittenIf(call, seen[k], level, k);
  }

  ghost predicate NoFailure(writes: seq<WriteOutcome>) {
    forall k :: 0 <= k < |writes| ==> !writes[k].Failed?
  }

  class Logger {
    const base: int
    var level: int
    var output: string
    var writes: seq<WriteOutcome>           // outcomes of the writes to come; after them writes take everything
    var arriving: seq<seq<int>>             // signals to arrive at the coming points between statements
    ghost var delivered: seq<int>           // signals handled so far

    ghost predicate Valid()
      reads this
    {
      level == LevelAfter(base, delivered)
    }

    constructor (requestedBase: int, writes: seq<WriteOutcome>, arriving: seq<seq<int>>)
      ensures Valid() && delivered == [] && output == "" && level == 3 && base == BaseFor(requestedBase)
      ensures this.writes == writes && this.arriving == arriving
    {
      base := BaseFor(requestedBase);
      level := INFO;
      output := "";
      this.writes := writes;
      this.arriving := arriving;
      delivered := [];
    }

    method HandleSignal(signo: int)
      requires Valid()
      modifies this`level, this`delivered
      ensures Valid() && delivered == old(delivered) + [signo]
    {
      var selected := signo - base;
      if DISABLED <= selected <= DEBUG {
        level := selected;
      }
      delivered := delivered + [signo];
      assert delivered[..|delivered| - 1] == old(delivered);
    }

    /** set_log_level has the effect of the signal for that level. */
    method SetLogLevel(requested: int)
      requires Valid()
      modifies this`level, this`delivered
      ensures Valid() && delivered == old(delivered) + [base + requested]
      ensures level == if 0 <= requested <= 4 then requested else old(level)
    {
      if DISABLED <= requested <= DEBUG {
        level := requested;
      }
      delivered := delivered + [base + requested];
      assert delivered[..|delivered| - 1] == old(delivered);
    }

    /** A point between two statements, where any signals may be handled. */
    method Interrupt()
      requires Valid()
      modifies this`level, this`delivered, this`arriving
      ensures Valid() && delivered == old(delivered) + Head(old(arriving)) && arriving == Tail(old(arriving))
    {
      var signals := Head(arriving);
      arriving := Tail(arriving);
      var k := 0;
      while k < |signals|
        invariant 0 <= k <= |signals| && Valid() && delivered == old(delivered) + signals[..k]
        invariant arriving == Tail(old(arriving))
      {
        HandleSignal(signals[k]);
        assert signals[..k + 1] == signals[..k] + [signals[k]];
        k := k + 1;
      }
      assert signals[..k] == signals;
    }

    /** write: how many bytes were taken, or that it was interrupted or failed. */
    method Write(buf: string) returns (written: nat, interrupted: bool, failed: bool)
      requires Valid() && buf != ""
      modifies this
      ensures Valid() && old(delivered) <= delivered
      ensures written <= |buf| && output == old(output) + buf[..written]
      ensures failed <==> old(writes) != [] && old(writes)[0].Failed?
      ensures interrupted <==> old(writes) != [] && old(writes)[0].Interrupted?
      ensures (interrupted || failed ==> written == 0) && (!interrupted && !failed ==> written > 0)
      ensures writes == if old(writes) == [] then [] else old(writes)[1..]
    {
      written, interrupted, failed := 0, false, false;
      var outcome := if writes == [] then Wrote(|buf|) else writes[0];
      if writes != [] {
        writes := writes[1..];
      }
      match outcome {
        case Failed =>
          failed := true;
        case Interrupted(signo) =>
          interrupted := true;
          HandleSignal(signo);
        case Wrote(bytes) =>
          written := if bytes == 0 then 1 else if bytes > |buf| then |buf| else bytes;
      }
      output := output + buf[..written];
    }

    /** safe_write: goes on after partial and interrupted writes, gives up on an error. */
    method SafeWrite(buf: string)
      requires Valid()
      modifies this
      ensures Valid() && old(delivered) <= delivered
      ensures exists k :: 0 <= k <= |buf| && output == old(output) + buf[..k]
      ensures NoFailure(old(writes)) ==> output == old(output) + buf && NoFailure(writes)
    {
      var rest := 0;
      assert output == old(output) + buf[..0];
      while rest < |buf|
        invariant 0 <= rest <= |buf| && Valid() && old(delivered) <= delivered
        invariant output == old(output) + buf[..rest]
        invariant NoFailure(old(writes)) ==> NoFailure(writes)
        decreases |writes| + |buf| - rest
      {
        var written, interrupted, failed := Write(buf[rest..]);
        if failed {
          assert buf[..rest] + buf[rest..][..0] == buf[..rest];
          return;
        }
        assert buf[..rest] + buf[rest..][..written] == buf[..rest + written];
        rest := rest + written;
      }
      assert buf[..rest] == buf;
    }

    /** The two writes of log_message. */
    method WriteRecord(call: Call)
      requires Valid()
      modifies this
      ensures Valid() && old(delivered) <= delivered
      ensures NoFailure(old(writes)) ==> NoFailure(writes) && output == old(output) + Record(call)
    {
      ghost var before := output;
      SafeWrite(Text(call));
      ghost var between := output;
      Interrupt();
      SafeWrite("\n");
      assert before + Text(call) + "\n" == before + Record(call);
    }

    /** One of the LOG_ functions together with log_message; signals may arrive before each test. The call
        sees the levels in force at its two tests, and writes its record exactly when it passes both. */
    method Log(call: Call) returns (seen: Seen, ghost moment: Moment)
      requires Valid()
      modifies this
      ensures Valid() && old(delivered) <= delivered
      ensures SawThen(base, delivered, call, seen, moment) && |old(delivered)| <= moment.first
      ensures seen.first == LevelAfter(base, old(delivered) + Head(old(arriving)))
      ensures seen.first >= call.threshold ==>
                seen.second == LevelAfter(base, old(delivered) + Head(old(arriving)) + Head(Tail(old(arriving))))
      ensures NoFailure(old(writes)) ==>
                NoFailure(writes) && output == old(output) + if Passes(call, seen) then Record(call) else ""
      ensures !Passes(call, seen) ==> output == old(output)
    {
      Interrupt();
      seen, moment := Seen(level, DISABLED), Moment(|delivered|, |delivered|);
      ghost var first, second := delivered, delivered;
      if level >= call.threshold {
        Interrupt();
        second := delivered;
        seen, moment := seen.(second := level), moment.(second := |delivered|);
        if level != DISABLED {
          WriteRecord(call);
        }
      }
      assert delivered[..moment.first] == first && delivered[..moment.second] == second;
    }

    /** The next call of a session. */
    method LogNext(calls: seq<Call>, k: nat, seen: seq<Seen>, ghost moments: seq<Moment>, ghost from: nat,
                   ghost start: string)
      returns (seen': seq<Seen>, ghost moments': seq<Moment>)
      requires Valid() && k < |calls| && from <= |delivered|
      requires SawLevels(base, delivered, from, calls[..k], seen, moments)
      modifies this
      ensures Valid() && old(delivered) <= delivered
      ensures SawLevels(base, delivered, from, calls[..k + 1], seen', moments')
      ensures NoFailure(old(writes)) ==> NoFailure(writes)
      ensures NoFailure(old(writes)) && old(output) == start + Stream(calls[..k], seen) ==>
                output == start + Stream(calls[..k + 1], seen')
    {
      ghost var before := delivered;
      var s;
      ghost var m;
      s, m := Log(calls[k]);
      SawNext(base, before, delivered, from, calls, k, seen, moments, s, m);
      StreamNext(start, calls, k, seen, s);
      seen', moments' := seen + [s], moments + [m];
    }

    /** Log stream. For every schedule of partial writes, interruptions and signals, without write errors the
        output is the concatenation of whole records, those of the calls that passed both tests; and what a
        call saw at its tests are the levels in force at two moments between its neighbours'. */
    method Session(calls: seq<Call>) returns (seen: seq<Seen>, ghost moments: seq<Moment>)
      requires Valid()
      modifies this
      ensures Valid() && DISABLED <= level <= DEBUG && old(delivered) <= delivered
      ensures SawLevels(base, delivered, |old(delivered)|, calls, seen, moments)
      ensures NoFailure(old(writes)) ==> output == old(output) + Stream(calls, seen)
    {
      seen, moments := [], [];
      var k := 0;
      assert calls[..0] == [] && old(output) + "" == old(output);
      while k < |calls|
        invariant 0 <= k <= |calls| && Valid() && old(delivered) <= delivered
        invariant SawLevels(base, delivered, |old(delivered)|, calls[..k], seen, moments)
        invariant NoFailure(old(writes)) ==> NoFailure(writes) && output == old(output) + Stream(calls[..k], seen)
      {
        seen, moments := LogNext(calls, k, seen, moments, |old(delivered)|, old(output));
        k := k + 1;
      }
      assert calls[..k] == calls;
    }
  }
}
