/** read_meminfo_value: scanning a file for the first matching line through a fixed buffer. */
module MeminfoScan {
  import opened Options

  const BUFFER_SIZE: nat := 1024

  /** Longest line, newline excluded, that fits the buffer with its newline and the terminating NUL. */
  const MAX_LINE: nat := BUFFER_SIZE - 2

  /** What regexec and sscanf do with a line: None when it does not match, else the number extracted. */
  type Matcher = string -> Option<nat>

  // ---- The file as a whole ------------------------------------------------------------------------

  function Find(s: string, c: char): (i: nat)
    ensures i <= |s|
    ensures forall k :: 0 <= k < i ==> s[k] != c
    ensures i < |s| ==> s[i] == c
  {
    if s == [] || s[0] == c then 0 else 1 + Find(s[1..], c)
  }

  /** The newline-terminated lines of a file, without their newlines. */
  function Lines(s: string): seq<string> {
    var e := Find(s, '\n');
    if e == |s| then [] else [s[..e]] + Lines(s[e + 1..])
  }

  /** The number on the first matching line, 0 if there is none. */
  function FirstMatch(lines: seq<string>, matcher: Matcher): nat {
    if lines == [] then 0
    else match matcher(lines[0])
      case Some(v) => v
      case None => FirstMatch(lines[1..], matcher)
  }

  /** The lines before the first one too long for the buffer. */
  function Fitting(lines: seq<string>): seq<string> {
    if lines == [] || |lines[0]| > MAX_LINE then [] else [lines[0]] + Fitting(lines[1..])
  }

  /** What the scanner finds from a line start on. */
  function Scan(s: string, matcher: Matcher): nat {
    FirstMatch(Fitting(Lines(s)), matcher)
  }

  /** One line of the scan. */
  lemma ScanLine(s: string, e: nat, matcher: Matcher)
    requires e < |s| && s[e] == '\n' && (forall k :: 0 <= k < e ==> s[k] != '\n') && e <= MAX_LINE
    ensures Scan(s, matcher) == match matcher(s[..e]) case Some(v) => v case None => Scan(s[e + 1..], matcher)
  {
    assert Find(s, '\n') == e;
    assert Fitting(Lines(s))[1..] == Fitting(Lines(s[e + 1..]));
  }

  /** Nothing is found in a last line without newline, or from an overlong line on. */
  lemma ScanStops(s: string, matcher: Matcher)
    requires forall k :: 0 <= k < |s| && k <= MAX_LINE ==> s[k] != '\n'
    ensures Scan(s, matcher) == 0
  {
    var e := Find(s, '\n');
    assert e == |s| || e > MAX_LINE;
  }

  // ---- read ------------------------------------------------------------------------------------------

  class OpenFile {
    const content: string
    var pos: nat
    var failed: bool                        // a read has returned -1

    constructor (content: string)
      ensures this.content == content && pos == 0 && !failed
    {
      this.content := content;
      pos, failed := 0, false;
    }

    /** Fails, or delivers at least one byte unless nothing was asked for or the file has ended; which, and
        how many bytes, is up to the system. */
    method Read(buffer: array<char>, at: nat, count: nat) returns (n: int)
      requires pos <= |content| && at + count <= buffer.Length
      modifies this`pos, this`failed, buffer
      ensures failed == (old(failed) || n < 0)
      ensures n == 0 <==> !(n < 0) && (count == 0 || old(pos) == |content|)
      ensures n <= count && pos == old(pos) + (if n < 0 then 0 else n) <= |content|
      ensures forall k :: 0 <= k < at ==> buffer[k] == old(buffer[k])
      ensures forall k :: at <= k < at + n ==> buffer[k] == content[old(pos) + k - at]
    {
      if * {
        failed := true;
        return -1;
      }
      if count == 0 || pos == |content| {
        return 0;
      }
      var most := if count < |content| - pos then count else |content| - pos;
      n :| 1 <= n <= most;
      forall i | 0 <= i < n {
        buffer[at + i] := content[pos + i];
      }
      pos := pos + n;
    }
  }

  /** strchr for a newline in the C string that starts at `from`. */
  method StrchrNewline(buffer: array<char>, from: nat, ghost end: nat) returns (i: nat, found: bool)
    requires from <= end < buffer.Length && buffer[end] == '\0'
    requires forall k :: from <= k < end ==> buffer[k] != '\0'
    ensures from <= i <= end && forall k :: from <= k < i ==> buffer[k] != '\n'
    ensures found ==> i < end && buffer[i] == '\n'
    ensures !found ==> i == end
  {
    i := from;
    while buffer[i] != '\0' && buffer[i] != '\n'
      invariant from <= i <= end && forall k :: from <= k < i ==> buffer[k] != '\n'
      decreases end - i
    {
      i := i + 1;
    }
    found := buffer[i] == '\n';
  }

  /** A newline-terminated line that fits the buffer. */
  ghost predicate IsLine(content: string, from: nat, to: nat) {
    && from <= to < |content| && content[to] == '\n' && to - from <= MAX_LINE
    && forall k :: from <= k < to ==> content[k] != '\n'
  }

  lemma ScanLineAt(content: string, from: nat, to: nat, matcher: Matcher)
    requires IsLine(content, from, to)
    ensures Scan(content[from..], matcher)
         == match matcher(content[from..to]) case Some(v) => v case None => Scan(content[to + 1..], matcher)
  {
    var s := content[from..];
    assert s[..to - from] == content[from..to];
    assert s[to - from + 1..] == content[to + 1..];
    ScanLine(s, to - from, matcher);
  }

  /** From `from` to `end` there are only complete lines that fit the buffer and do not match. */
  ghost predicate Skipped(content: string, from: nat, end: nat, matcher: Matcher)
    decreases end
  {
    from == end
    || exists last :: from <= last < end && Skipped(content, from, last, matcher)
                      && IsLine(content, last, end - 1) && matcher(content[last..end - 1]).None?
  }

  lemma SkipLine(content: string, from: nat, end: nat, matcher: Matcher)
    requires from < end && IsLine(content, from, end - 1) && matcher(content[from..end - 1]).None?
    ensures Scan(content[from..], matcher) == Scan(content[end..], matcher)
  {
    ScanLineAt(content, from, end - 1, matcher);
  }

  lemma {:induction false} SkippedChain(content: string, from: nat, mid: nat, end: nat, matcher: Matcher)
    requires from <= mid && Skipped(content, from, mid, matcher) && Skipped(content, mid, end, matcher)
    ensures Skipped(content, from, end, matcher)
    decreases end
  {
    if end != mid {
      var last :| mid <= last < end && Skipped(content, mid, last, matcher)
                  && IsLine(content, last, end - 1) && matcher(content[last..end - 1]).None?;
      SkippedChain(content, from, mid, last, matcher);
    }
  }

  /** They make no difference to the scan. */
  lemma {:induction false} SkippedScan(content: string, from: nat, end: nat, matcher: Matcher)
    requires end <= |content| && Skipped(content, from, end, matcher)
    ensures from <= end && Scan(content[from..], matcher) == Scan(content[end..], matcher)
    decreases end
  {
    if end != from {
      var last :| from <= last < end && Skipped(content, from, last, matcher)
                  && IsLine(content, last, end - 1) && matcher(content[last..end - 1]).None?;
      SkippedScan(content, from, last, matcher);
      SkipLine(content, last, end, matcher);
    }
  }

  /** A match behind them is what the scan finds. */
  lemma MatchScan(content: string, start: nat, from: nat, to: nat, matcher: Matcher)
    requires Skipped(content, start, from, matcher) && IsLine(content, from, to) && matcher(content[from..to]).Some?
    ensures start <= from && Scan(content[start..], matcher) == matcher(content[from..to]).value
  {
    SkippedScan(content, start, from, matcher);
    ScanLineAt(content, from, to, matcher);
  }

  /** A stretch of the buffer holds the part of the file that starts `start` characters further on. */
  ghost predicate Holds(buffer: array<char>, from: nat, to: nat, content: string, start: nat)
    reads buffer
  {
    && from <= to <= buffer.Length && start + to <= |content|
    && forall k :: from <= k < to ==> buffer[k] == content[start + k]
  }

  /** strchr and regexec on the line at `lineStart`; the newline behind the line is overwritten. */
  method MatchLine(buffer: array<char>, lineStart: nat, ghost total: nat, ghost content: string, ghost start: nat,
                   matcher: Matcher)
    returns (lineEnd: nat, found: bool, outcome: Option<nat>)
    requires lineStart <= total < buffer.Length == BUFFER_SIZE && '\0' !in content
    requires Holds(buffer, lineStart, total, content, start) && buffer[total] == '\0'
    modifies buffer
    ensures lineStart <= lineEnd <= total && buffer[total] == '\0'
    ensures !found ==>
              && lineEnd == total && Holds(buffer, lineStart, total, content, start)
              && forall k :: lineStart <= k < total ==> buffer[k] != '\n'
    ensures found ==>
              && lineEnd < total && Holds(buffer, lineEnd + 1, total, content, start)
              && IsLine(content, start + lineStart, start + lineEnd)
              && outcome == matcher(content[start + lineStart..start + lineEnd])
  {
    outcome := None;
    forall k | lineStart <= k < total ensures buffer[k] != '\0' {
      assert buffer[k] == content[start + k];
    }
    lineEnd, found := StrchrNewline(buffer, lineStart, total);
    if found {
      forall k | start + lineStart <= k < start + lineEnd ensures content[k] != '\n' {
        assert content[k] == buffer[k - start];
      }
      buffer[lineEnd] := '\0';
      assert buffer[lineStart..lineEnd] == content[start + lineStart..start + lineEnd];
      outcome := matcher(buffer[lineStart..lineEnd]);
    }
  }

  /** The inner loop: the complete lines now in the buffer, which holds the next `total` characters of the
      file from `start`. Without a match it stops at the partial line that is left. */
  method ScanBuffer(buffer: array<char>, ghost total: nat, ghost content: string, ghost start: nat, matcher: Matcher)
    returns (outcome: Option<nat>, lineStart: nat, length: nat)
    requires total < buffer.Length == BUFFER_SIZE && '\0' !in content
    requires Holds(buffer, 0, total, content, start) && buffer[total] == '\0'
    modifies buffer
    ensures outcome.Some? ==> outcome.value == Scan(content[start..], matcher)
    ensures outcome.None? ==>
              && lineStart + length == total
              && Holds(buffer, lineStart, total, content, start)
              && (forall k :: lineStart <= k < total ==> buffer[k] != '\n')
              && Skipped(content, start, start + lineStart, matcher)
  {
    lineStart, length := 0, 0;
    while true
      invariant lineStart <= total && buffer[total] == '\0'
      invariant Holds(buffer, lineStart, total, content, start)
      invariant Skipped(content, start, start + lineStart, matcher)
      decreases total - lineStart
    {
      var lineEnd, found, value := MatchLine(buffer, lineStart, total, content, start, matcher);
      if !found {
        return None, lineStart, lineEnd - lineStart; // strlen(line_start): strchr stopped at the NUL
      }
      if value.Some? {
        MatchScan(content, start, start + lineStart, start + lineEnd, matcher);
        return value, lineStart, length;
      }
      lineStart := lineEnd + 1;
    }
  }

  /** The buffer holds the part of the file before the read position, a partial line. */
  ghost predicate Carries(file: OpenFile, buffer: array<char>, offset: nat)
    reads file, buffer
  {
    && offset < buffer.Length == BUFFER_SIZE
    && offset <= file.pos <= |file.content|
    && Holds(buffer, 0, offset, file.content, file.pos - offset)
    && forall k :: 0 <= k < offset ==> buffer[k] != '\n'
  }

  /** The read at the top of the outer loop, appending to the partial line carried over. */
  method Refill(file: OpenFile, buffer: array<char>, offset: nat) returns (n: int)
    requires Carries(file, buffer, offset)
    modifies file`pos, file`failed, buffer
    ensures file.failed == (old(file.failed) || n < 0)
    ensures n >= 0 ==>
              && file.pos == old(file.pos) + n <= |file.content| && offset + n < BUFFER_SIZE
              && Holds(buffer, 0, offset + n, file.content, file.pos - (offset + n))
              && forall k :: 0 <= k < offset ==> buffer[k] != '\n'
    ensures n == 0 ==> offset == BUFFER_SIZE - 1 || file.pos == |file.content|
    ensures n > 0 ==> buffer[offset + n] == '\0'
  {
    n := file.Read(buffer, offset, BUFFER_SIZE - offset - 1);
    if n > 0 {
      buffer[n + offset] := '\0';
    }
  }

  /** memmove of the partial line to the front of the buffer. */
  method MoveToFront(buffer: array<char>, from: nat, length: nat)
    requires from + length <= buffer.Length
    modifies buffer
    ensures forall k :: 0 <= k < length ==> buffer[k] == old(buffer[from + k])
  {
    forall i | 0 <= i < length {
      buffer[i] := buffer[from + i];
    }
  }

  /** When read delivers nothing the file has ended or the buffer is full: no line can be completed. */
  lemma NothingRead(content: string, start: nat, offset: nat, matcher: Matcher)
    requires start + offset <= |content| && forall k :: start <= k < start + offset ==> content[k] != '\n'
    requires offset == BUFFER_SIZE - 1 || start + offset == |content|
    ensures Scan(content[start..], matcher) == 0
  {
    ScanStops(content[start..], matcher);
  }

  /** One turn of the outer loop: read, scan the complete lines, carry over the partial one. */
  method ScanChunk(file: OpenFile, buffer: array<char>, offset: nat, matcher: Matcher)
    returns (stop: bool, value: nat, carried: nat)
    requires Carries(file, buffer, offset) && '\0' !in file.content && !file.failed
    modifies file`pos, file`failed, buffer
    ensures stop ==> value == if file.failed then 0 else Scan(file.content[old(file.pos) - offset..], matcher)
    ensures !stop ==>
              && !file.failed && file.pos > old(file.pos) && Carries(file, buffer, carried)
              && Skipped(file.content, old(file.pos) - offset, file.pos - carried, matcher)
  {
    ghost var content, start := file.content, file.pos - offset;
    stop, value, carried := true, 0, 0;
    var bytesRead := Refill(file, buffer, offset);
    if bytesRead < 0 {
      return;
    }
    if bytesRead == 0 {
      forall k | start <= k < start + offset ensures content[k] != '\n' {
        assert content[k] == buffer[k - start];
      }
      NothingRead(content, start, offset, matcher);
      return;
    }
    var outcome, lineStart, length := ScanBuffer(buffer, offset + bytesRead, content, start, matcher);
    if outcome.Some? {
      value := outcome.value;
      return;
    }
    MoveToFront(buffer, lineStart, length);
    stop, carried := false, length;
  }

  /** The scanner. However `read` splits the file, the result is that of `Scan` on the whole of it; it is 0
      if a read fails first. */
  method ReadMeminfoValue(file: OpenFile, matcher: Matcher) returns (value: nat)
    requires file.pos == 0 && !file.failed && '\0' !in file.content
    modifies file`pos, file`failed
    ensures value == if file.failed then 0 else Scan(file.content, matcher)
  {
    var buffer := new char[BUFFER_SIZE];
    var offset: nat := 0;
    var stop := false;
    value := 0;
    while !stop
      invariant !stop ==> Carries(file, buffer, offset) && Skipped(file.content, 0, file.pos - offset, matcher)
      invariant !stop ==> !file.failed
      invariant stop ==> value == if file.failed then 0 else Scan(file.content[0..], matcher)
      decreases !stop, |file.content| - file.pos
    {
      ghost var start := file.pos - offset;
      stop, value, offset := ScanChunk(file, buffer, offset, matcher);
      if stop {
        SkippedScan(file.content, 0, start, matcher);
      } else {
        SkippedChain(file.content, 0, start, file.pos - offset, matcher);
      }
    }
    assert file.content[0..] == file.content;
  }

  // ---- The lines of a file ---------------------------------------------------------------------------

  /** Lines with a newline behind each. */
  function Unlines(lines: seq<string>): string {
    if lines == [] then "" else lines[0] + "\n" + Unlines(lines[1..])
  }

  lemma {:induction false} UnlinesCons(line: string, others: seq<string>)
    ensures Unlines([line] + others) == line + "\n" + Unlines(others)
  {
    assert ([line] + others)[1..] == others;
  }

  lemma {:induction false} FirstLine(s: string, e: nat)
    requires e == Find(s, '\n') < |s|
    ensures '\n' !in s[..e] && s == s[..e] + "\n" + s[e + 1..]
    ensures Lines(s) == [s[..e]] + Lines(s[e + 1..])
  {
    assert [s[e]] == "\n";
  }

  /** A file is its lines with a newline behind each, and a rest without newline. */
  lemma {:induction false} LinesCharacterized(s: string) returns (rest: string)
    ensures s == Unlines(Lines(s)) + rest && '\n' !in rest
    decreases |s|
  {
    var e := Find(s, '\n');
    if e == |s| {
      rest := s;
      assert "" + rest == rest;
    } else {
      FirstLine(s, e);
      rest := LinesCharacterized(s[e + 1..]);
      UnlinesCons(s[..e], Lines(s[e + 1..]));
      Glue(s[..e], Unlines(Lines(s[e + 1..])), rest);
    }
  }

  /** No line has a newline inside. */
  lemma {:induction false} LinesAreWhole(s: string, k: nat)
    requires k < |Lines(s)|
    ensures '\n' !in Lines(s)[k]
    decreases |s|
  {
    var e := Find(s, '\n');
    FirstLine(s, e);
    if k > 0 {
      LinesAreWhole(s[e + 1..], k - 1);
    }
  }

  lemma Glue(line: string, others: string, rest: string)
    ensures (line + "\n" + others) + rest == line + "\n" + (others + rest)
  {
  }

  // ---- Agreement with a simple scan ---------------------------------------------------------------

  /** The position of the first matching line, or the number of lines. */
  function FirstMatching(lines: seq<string>, matcher: Matcher): (i: nat)
    ensures i <= |lines|
    ensures forall k :: 0 <= k < i ==> matcher(lines[k]).None?
    ensures i < |lines| ==> matcher(lines[i]).Some?
  {
    if lines == [] || matcher(lines[0]).Some? then 0 else 1 + FirstMatching(lines[1..], matcher)
  }

  lemma {:induction false} FirstMatchIs(lines: seq<string>, matcher: Matcher)
    ensures var i := FirstMatching(lines, matcher);
            FirstMatch(lines, matcher) == if i < |lines| then matcher(lines[i]).value else 0
  {
    if lines != [] && matcher(lines[0]).None? {
      FirstMatchIs(lines[1..], matcher);
    }
  }

  lemma {:induction false} FittingScan(lines: seq<string>, matcher: Matcher)
    ensures var i := FirstMatching(lines, matcher);
            var fits := i < |lines| && forall k :: 0 <= k <= i ==> |lines[k]| <= MAX_LINE;
            FirstMatch(Fitting(lines), matcher) == if fits then FirstMatch(lines, matcher) else 0
  {
    var i := FirstMatching(lines, matcher);
    if lines != [] && |lines[0]| <= MAX_LINE {
      assert Fitting(lines)[1..] == Fitting(lines[1..]);
      if matcher(lines[0]).None? {
        FittingScan(lines[1..], matcher);
        FirstMatchIs(lines[1..], matcher);
        assert forall k :: 0 < k <= i && k < |lines| ==> lines[k] == lines[1..][k - 1];
      }
    } else {
      FirstMatchIs(lines, matcher);
    }
  }

  /** Exactly when the scanner returns the number on the first matching newline-terminated line: that line
      and all before it fit the buffer, or there is no such line, or its number is 0 anyway. */
  lemma ScanAgrees(s: string, matcher: Matcher)
    ensures var lines := Lines(s);
            var i := FirstMatching(lines, matcher);
            Scan(s, matcher) == FirstMatch(lines, matcher)
            <==> (i < |lines| ==>
                    (forall k :: 0 <= k <= i ==> |lines[k]| <= 1022) || matcher(lines[i]).value == 0)
  {
    FittingScan(Lines(s), matcher);
    FirstMatchIs(Lines(s), matcher);
  }
}
