/** parse_input: cutting a command line into arguments, in place. */
module Tokenizer {
  import opened Options

  predicate IsDelim(c: char) { c == ' ' || c == '\n' }

  // ---- Tokens of a line -----------------------------------------------------------------------------

  /** Length of the longest prefix free of delimiters. */
  function WordLength(s: string): (n: nat)
    ensures n <= |s|
    ensures forall k :: 0 <= k < n ==> !IsDelim(s[k])
    ensures n < |s| ==> IsDelim(s[n])
  {
    if s == [] || IsDelim(s[0]) then 0 else 1 + WordLength(s[1..])
  }

  function Tokens(s: string): seq<string>
    decreases |s|
  {
    if s == [] then []
    else if IsDelim(s[0]) then Tokens(s[1..])
    else [s[..WordLength(s)]] + Tokens(s[WordLength(s)..])
  }

  predicate Plain(word: string) {
    word != [] && forall k :: 0 <= k < |word| ==> word[k] != ' ' && word[k] != '\n'
  }

  predicate Blank(gap: string) {
    forall k :: 0 <= k < |gap| ==> gap[k] == ' ' || gap[k] == '\n'
  }

  /** A line read as gap, word, gap, word, ..., gap. */
  function Weave(gaps: seq<string>, words: seq<string>): string
    requires |gaps| == |words| + 1
  {
    if words == [] then gaps[0] else gaps[0] + words[0] + Weave(gaps[1..], words[1..])
  }

  /** Words free of delimiters, set apart by delimiters: the words are the maximal delimiter-free runs. */
  predicate Separates(gaps: seq<string>, words: seq<string>) {
    && |gaps| == |words| + 1
    && (forall k :: 0 <= k < |words| ==> Plain(words[k]))
    && (forall k :: 0 <= k < |gaps| ==> Blank(gaps[k]))
    && (forall k :: 0 < k < |words| ==> gaps[k] != [])
  }

  lemma {:induction false} SkipGap(gap: string, s: string)
    requires Blank(gap)
    ensures Tokens(gap + s) == Tokens(s)
  {
    if gap == [] {
      assert gap + s == s;
    } else {
      assert (gap + s)[1..] == gap[1..] + s;
      SkipGap(gap[1..], s);
    }
  }

  lemma TakeWord(word: string, s: string)
    requires Plain(word) && (s == [] || IsDelim(s[0]))
    ensures Tokens(word + s) == [word] + Tokens(s)
  {
    var t := word + s;
    assert forall k :: 0 <= k < |word| ==> t[k] == word[k];
    assert |t| > |word| ==> t[|word|] == s[0];
    assert t[..|word|] == word && t[|word|..] == s;
  }

  /** Whatever separates the words, they are the tokens. */
  lemma {:induction false} TokensOfWeave(gaps: seq<string>, words: seq<string>)
    requires Separates(gaps, words)
    ensures Tokens(Weave(gaps, words)) == words
  {
    if words == [] {
      NoTokens(gaps[0]);
    } else {
      var rest := Weave(gaps[1..], words[1..]);
      assert Separates(gaps[1..], words[1..]);
      TokensOfWeave(gaps[1..], words[1..]);
      assert rest == [] || IsDelim(rest[0]) by {
        assert words[1..] == [] ==> rest == gaps[1];
        assert gaps[1] != [] ==> rest[0] == gaps[1][0];
      }
      TakeWord(words[0], rest);
      SkipGap(gaps[0], words[0] + rest);
      assert Weave(gaps, words) == gaps[0] + (words[0] + rest);
    }
  }

  lemma WeaveFront(c: char, gaps: seq<string>, words: seq<string>)
    requires |gaps| == |words| + 1
    ensures Weave([[c] + gaps[0]] + gaps[1..], words) == [c] + Weave(gaps, words)
  {
    var gaps' := [[c] + gaps[0]] + gaps[1..];
    assert gaps'[1..] == gaps[1..];
    if words != [] {
      var rest := Weave(gaps[1..], words[1..]);
      assert ([c] + gaps[0]) + words[0] + rest == [c] + (gaps[0] + words[0] + rest);
    }
  }

  lemma GapAtFront(c: char, gaps: seq<string>, words: seq<string>)
    requires IsDelim(c) && Separates(gaps, words)
    ensures var gaps' := [[c] + gaps[0]] + gaps[1..];
            Separates(gaps', words) && Weave(gaps', words) == [c] + Weave(gaps, words)
  {
    WeaveFront(c, gaps, words);
  }

  lemma WordAtFront(word: string, gaps: seq<string>, words: seq<string>)
    requires Plain(word) && Separates(gaps, words) && (words != [] ==> gaps[0] != [])
    ensures Separates([[]] + gaps, [word] + words) && Weave([[]] + gaps, [word] + words) == word + Weave(gaps, words)
  {
    assert ([[]] + gaps)[1..] == gaps && ([word] + words)[1..] == words;
  }

  /** Every line is its tokens, set apart by delimiters. */
  lemma {:induction false} WeaveOfTokens(s: string) returns (gaps: seq<string>)
    ensures Separates(gaps, Tokens(s)) && Weave(gaps, Tokens(s)) == s
    decreases |s|
  {
    if s == [] {
      gaps := [[]];
    } else if IsDelim(s[0]) {
      var tail := WeaveOfTokens(s[1..]);
      gaps := [[s[0]] + tail[0]] + tail[1..];
      GapAtFront(s[0], tail, Tokens(s[1..]));
    } else {
      var n := WordLength(s);
      var tail := WeaveOfTokens(s[n..]);
      gaps := [[]] + tail;
      GapAfterWord(s[n..], tail);
      WordAtFront(s[..n], tail, Tokens(s[n..]));
      assert s == s[..n] + s[n..];
    }
  }

  /** A delimiter at the front of a line belongs to its first gap. */
  lemma GapAfterWord(s: string, gaps: seq<string>)
    requires Separates(gaps, Tokens(s)) && Weave(gaps, Tokens(s)) == s
    requires s == [] || IsDelim(s[0])
    ensures Tokens(s) != [] ==> gaps[0] != []
  {
    if Tokens(s) != [] {
      var word := Tokens(s)[0];
      assert Plain(word);
      assert s == (gaps[0] + word) + Weave(gaps[1..], Tokens(s)[1..]);
      assert s[0] == (gaps[0] + word)[0];
    }
  }

  /** The tokens of a line are its maximal delimiter-free runs, in order, and nothing else is. */
  lemma TokensCharacterized(s: string, words: seq<string>)
    ensures words == Tokens(s) <==> exists gaps :: Separates(gaps, words) && Weave(gaps, words) == s
  {
    if words == Tokens(s) {
      var gaps := WeaveOfTokens(s);
    }
    forall gaps | Separates(gaps, words) && Weave(gaps, words) == s
      ensures words == Tokens(s)
    {
      TokensOfWeave(gaps, words);
    }
  }

  function Join(words: seq<string>): string {
    if words == [] then "" else if |words| == 1 then words[0] else words[0] + " " + Join(words[1..])
  }

  /** The gaps of joined words: nothing in front, single spaces between, `end` behind. */
  function JoinGaps(n: nat, end: string): (gaps: seq<string>)
    ensures |gaps| == n + 1 && gaps[n] == end
    ensures n > 0 ==> gaps[0] == ""
    ensures forall k :: 0 < k < n ==> gaps[k] == " "
  {
    if n == 0 then [end] else if n == 1 then ["", end] else ["", " "] + JoinGaps(n - 1, end)[1..]
  }

  lemma Regroup(a: string, b: string, c: string, d: string)
    ensures a + (b + (c + d)) == (a + b + c) + d
  {
  }

  lemma JoinGapsTail(n: nat, end: string)
    requires n > 1
    ensures var tail := JoinGaps(n - 1, end);
            JoinGaps(n, end)[1..] == [[' '] + tail[0]] + tail[1..]
  {
    var tail := JoinGaps(n - 1, end);
    assert [' '] + tail[0] == " ";
    assert JoinGaps(n, end) == ["", " "] + tail[1..];
    assert (["", " "] + tail[1..])[1..] == [" "] + tail[1..];
  }

  lemma JoinOne(word: string, end: string)
    ensures Weave(JoinGaps(1, end), [word]) == word + end
  {
    assert JoinGaps(1, end)[1..] == [end] && [word][1..] == [];
    assert "" + word == word;
  }

  lemma JoinMore(words: seq<string>, end: string)
    requires |words| > 1
    requires Weave(JoinGaps(|words| - 1, end), words[1..]) == Join(words[1..]) + end
    ensures Weave(JoinGaps(|words|, end), words) == words[0] + (" " + (Join(words[1..]) + end))
  {
    JoinGapsTail(|words|, end);
    WeaveFront(' ', JoinGaps(|words| - 1, end), words[1..]);
    assert "" + words[0] == words[0];
  }

  lemma {:induction false} JoinIsWeave(words: seq<string>, end: string)
    requires words != []
    ensures Weave(JoinGaps(|words|, end), words) == Join(words) + end
  {
    if |words| == 1 {
      JoinOne(words[0], end);
      assert words == [words[0]];
    } else {
      JoinIsWeave(words[1..], end);
      JoinMore(words, end);
      Regroup(words[0], " ", Join(words[1..]), end);
    }
  }

  lemma NoTokens(gap: string)
    requires Blank(gap)
    ensures Tokens(gap) == []
  {
    SkipGap(gap, []);
    assert gap + [] == gap;
  }

  lemma {:induction false} JoinSeparates(words: seq<string>, end: string)
    requires forall k :: 0 <= k < |words| ==> Plain(words[k])
    requires Blank(end) && words != []
    ensures Separates(JoinGaps(|words|, end), words)
  {
    var gaps := JoinGaps(|words|, end);
    assert Blank(" ");
    forall k | 0 <= k < |gaps| ensures Blank(gaps[k]) {
      assert gaps[k] == if k == 0 then "" else if k < |words| then " " else end;
    }
  }

  /** Round trip: words joined by single spaces, with or without a final newline, parse to themselves. */
  lemma JoinTokens(words: seq<string>, end: string)
    requires forall k :: 0 <= k < |words| ==> Plain(words[k])
    requires Blank(end)
    ensures Tokens(Join(words) + end) == words
  {
    if words == [] {
      NoTokens(end);
      assert Join(words) + end == end;
    } else {
      JoinIsWeave(words, end);
      JoinSeparates(words, end);
      TokensOfWeave(JoinGaps(|words|, end), words);
    }
  }

  /** Parsing is idempotent: the tokens joined by single spaces parse to the same tokens. */
  lemma Reparse(s: string)
    ensures Tokens(Join(Tokens(s))) == Tokens(s)
  {
    var gaps := WeaveOfTokens(s);
    JoinTokens(Tokens(s), "");
    assert Join(Tokens(s)) + "" == Join(Tokens(s));
  }

  /** The guard in main, and exactly what it is for: a line passes with no token only if it is empty, which
      getline never returns. */
  lemma GuardGivesToken(line: string)
    ensures line != [] && line[0] != '\n' && line[0] != ' ' ==> Tokens(line) != []
    ensures Tokens(line) == [] <==> Blank(line)
  {
    var gaps := WeaveOfTokens(line);
    assert Tokens(line) == [] ==> line == gaps[0];
    if Blank(line) {
      NoTokens(line);
    }
  }

  // ---- strtok ---------------------------------------------------------------------------------------

  /** The C string at position `p` of a buffer. */
  function CString(b: seq<char>, p: nat): string
    requires p <= |b|
    decreases |b| - p
  {
    if p == |b| || b[p] == '\0' then "" else [b[p]] + CString(b, p + 1)
  }

  lemma {:induction false} CStringIs(b: seq<char>, p: nat, word: string)
    requires p + |word| < |b| && b[p..p + |word|] == word && b[p + |word|] == '\0'
    requires forall k :: 0 <= k < |word| ==> word[k] != '\0'
    ensures CString(b, p) == word
    decreases |word|
  {
    if word != [] {
      assert b[p] == b[p..p + |word|][0];
      assert b[p + 1..p + 1 + |word[1..]|] == b[p..p + |word|][1..];
      CStringIs(b, p + 1, word[1..]);
    }
  }

  /** Skipping to a token, or to the end. */
  lemma {:induction false} SkipTo(s: string, n: nat)
    requires n <= |s| && Blank(s[..n])
    ensures Tokens(s) == Tokens(s[n..])
  {
    SkipGap(s[..n], s[n..]);
    assert s == s[..n] + s[n..];
  }

  /** Where the token starts: past the delimiters at `from`. */
  method SkipDelims(buffer: array<char>, from: nat, ghost end: nat) returns (p: nat)
    requires from <= end < buffer.Length && buffer[end] == '\0'
    ensures from <= p <= end && (buffer[p] != '\0' ==> p < end && !IsDelim(buffer[p]))
    ensures forall k :: from <= k < p ==> IsDelim(buffer[k])
  {
    p := from;
    while buffer[p] != '\0' && IsDelim(buffer[p])
      invariant from <= p <= end && forall k :: from <= k < p ==> IsDelim(buffer[k])
      decreases end - p
    {
      p := p + 1;
    }
  }

  /** Where it ends: at the next delimiter or at the end of the line. */
  method SkipWord(buffer: array<char>, from: nat, ghost end: nat) returns (q: nat)
    requires from <= end < buffer.Length && buffer[end] == '\0'
    ensures from <= q <= end && (buffer[q] == '\0' || IsDelim(buffer[q]))
    ensures forall k :: from <= k < q ==> !IsDelim(buffer[k]) && buffer[k] != '\0'
  {
    q := from;
    while buffer[q] != '\0' && !IsDelim(buffer[q])
      invariant from <= q <= end && forall k :: from <= k < q ==> !IsDelim(buffer[k]) && buffer[k] != '\0'
      decreases end - q
    {
      q := q + 1;
    }
  }

  lemma SkipRange(b: seq<char>, from: nat, p: nat, end: nat)
    requires from <= p <= end <= |b|
    requires forall k :: from <= k < p ==> IsDelim(b[k])
    ensures Tokens(b[from..end]) == Tokens(b[p..end])
  {
    SkipTo(b[from..end], p - from);
    assert b[from..end][p - from..] == b[p..end];
  }

  lemma TakeRange(b: seq<char>, p: nat, q: nat, end: nat)
    requires p < q <= end <= |b|
    requires forall k :: p <= k < q ==> !IsDelim(b[k])
    requires q < end ==> IsDelim(b[q])
    ensures Tokens(b[p..end]) == [b[p..q]] + Tokens(b[q..end])
  {
    TakeWord(b[p..q], b[q..end]);
    assert b[p..q] + b[q..end] == b[p..end];
  }

  /** The token found between `p` and `q` is the first of what is left of the line. */
  lemma Found(b: seq<char>, from: nat, p: nat, q: nat, end: nat)
    requires from <= p < q <= end < |b|
    requires forall k :: from <= k < p ==> IsDelim(b[k])
    requires forall k :: p <= k < q ==> !IsDelim(b[k])
    requires q < end ==> IsDelim(b[q])
    ensures Plain(b[p..q])
    ensures Tokens(b[from..end]) == [b[p..q]] + Tokens(if q < end then b[q + 1..end] else [])
  {
    SkipRange(b, from, p, end);
    TakeRange(b, p, q, end);
    if q < end {
      SkipRange(b, q, q + 1, end);
    }
  }

  lemma NoneFound(b: seq<char>, from: nat, end: nat)
    requires from <= end < |b|
    requires forall k :: from <= k < end ==> IsDelim(b[k])
    ensures Tokens(b[from..end]) == []
  {
    SkipTo(b[from..end], end - from);
  }

  /** strtok from its saved position: skips delimiters, finds the end of the token, overwrites the delimiter
      there with a NUL. `end` is the terminating NUL of the line. */
  method Strtok(buffer: array<char>, from: nat, ghost end: nat) returns (token: Option<nat>, save: nat, ghost stop: nat)
    requires from <= end < buffer.Length && buffer[end] == '\0'
    requires forall k :: from <= k < end ==> buffer[k] != '\0'
    modifies buffer
    ensures from <= save <= end && buffer[end] == '\0'
    ensures buffer[..from] == old(buffer[..from]) && buffer[save..end] == old(buffer[save..end])
    ensures token.None? ==> Tokens(old(buffer[from..end])) == []
    ensures token.Some? ==>
              && from <= token.value < stop <= end && buffer[stop] == '\0'
              && save == (if stop < end then stop + 1 else end)
              && Plain(buffer[token.value..stop])
              && (forall k :: token.value <= k < stop ==> buffer[k] != '\0')
              && Tokens(old(buffer[from..end])) == [buffer[token.value..stop]] + Tokens(buffer[save..end])
  {
    ghost var b := buffer[..];
    assert b[from..end] == buffer[from..end];
    var p := SkipDelims(buffer, from, end);
    save, stop := p, p;
    if buffer[p] == '\0' {
      NoneFound(b, from, end);
      return None, save, stop;
    }
    var q := SkipWord(buffer, p, end);
    Found(b, from, p, q, end);
    token, stop := Some(p), q;
    if buffer[q] != '\0' {
      buffer[q] := '\0';
      save := q + 1;
    } else {
      save := q;
    }
    assert buffer[p..q] == b[p..q];
    assert buffer[save..end] == if q < end then b[q + 1..end] else [];
  }

  // ---- parse_input --------------------------------------------------------------------------------

  const INITIAL_ARG_SIZE: nat := 10
  const ARG_INCREMENT: nat := 10

  /** The array size after `count` tokens: the size grows by ten whenever it is found used up. */
  function Capacity(count: nat): (size: nat)
    ensures size >= INITIAL_ARG_SIZE && size >= count
  {
    if count <= INITIAL_ARG_SIZE then INITIAL_ARG_SIZE else (count + ARG_INCREMENT - 1) / ARG_INCREMENT * ARG_INCREMENT
  }

  /** Exactly when the array has a slot left for the terminating NULL. */
  lemma TerminatorFits(count: nat)
    ensures count < Capacity(count) <==> count == 0 || count % 10 != 0
  {
  }

  /** Ten words leave none. */
  lemma TenWordsLeaveNoSlot()
    ensures |Tokens(Join(seq(10, _ => "a")) + "\n")| == 10 && !(10 < Capacity(10))
  {
    JoinTokens(seq(10, _ => "a"), "\n");
  }

  /** The pointer `p` is to the NUL-terminated `word`, which lies before the part still to be cut. */
  ghost predicate PointsAt(b: seq<char>, p: nat, word: string, save: nat) {
    && p + |word| < |b| && b[p..p + |word|] == word && b[p + |word|] == '\0'
    && (forall k :: 0 <= k < |word| ==> word[k] != '\0')
    && (p + |word| < save || p + |word| == |b| - 1 == save)
  }

  /** Cutting further on does not disturb the words already cut. */
  lemma PointsAtFrame(b: seq<char>, b': seq<char>, p: nat, word: string, save: nat, save': nat)
    requires |b| == |b'| && PointsAt(b, p, word, save) && save <= save' < |b|
    requires b[..save] == b'[..save] && b'[|b'| - 1] == '\0'
    ensures PointsAt(b', p, word, save')
  {
    assert b'[p..p + |word|] == b'[..save][p..p + |word|] == b[..save][p..p + |word|] == word;
    assert p + |word| < save ==> b'[p + |word|] == b'[..save][p + |word|] == b[..save][p + |word|];
  }

  /** Storing argument `argCount`, in an array ten slots larger when the old one is used up. */
  method Append(args: array<Option<nat>>, argCount: nat, token: Option<nat>) returns (args': array<Option<nat>>)
    requires argCount <= args.Length == Capacity(argCount)
    modifies args
    ensures args' == args || fresh(args')
    ensures args'.Length == Capacity(argCount + 1)
    ensures args'[..argCount + 1] == old(args[..argCount]) + [token]
  {
    args' := args;
    if argCount >= args.Length {
      args' := new Option<nat>[args.Length + ARG_INCREMENT](_ => None);
      forall k | 0 <= k < args.Length {
        args'[k] := args[k];
      }
    }
    args'[argCount] := token;
  }

  /** The pointers stored so far point at the first words, in order. */
  ghost predicate Stored(b: seq<char>, args: seq<Option<nat>>, words: seq<string>, save: nat) {
    |args| <= |words| && forall k :: 0 <= k < |args| ==> args[k].Some? && PointsAt(b, args[k].value, words[k], save)
  }

  lemma StoredFrame(b: seq<char>, b': seq<char>, args: seq<Option<nat>>, words: seq<string>, save: nat, save': nat)
    requires |b| == |b'| && Stored(b, args, words, save) && save <= save' < |b|
    requires b[..save] == b'[..save] && b'[|b'| - 1] == '\0'
    ensures Stored(b', args, words, save')
  {
    forall k | 0 <= k < |args| ensures args[k].Some? && PointsAt(b', args[k].value, words[k], save') {
      PointsAtFrame(b, b', args[k].value, words[k], save, save');
    }
  }

  /** The pointers are to C strings equal to the words. */
  ghost predicate AreStrings(b: seq<char>, args: seq<Option<nat>>, words: seq<string>) {
    && |args| == |words|
    && forall k :: 0 <= k < |args| ==> IsString(b, args[k], words[k])
  }

  ghost predicate IsString(b: seq<char>, arg: Option<nat>, word: string) {
    arg.Some? && arg.value < |b| && CString(b, arg.value) == word
  }

  lemma StoredStrings(b: seq<char>, args: seq<Option<nat>>, words: seq<string>, save: nat)
    requires Stored(b, args, words, save) && |args| == |words|
    ensures AreStrings(b, args, words)
  {
    forall k | 0 <= k < |args| ensures IsString(b, args[k], words[k]) {
      assert PointsAt(b, args[k].value, words[k], save);
      CStringIs(b, args[k].value, words[k]);
    }
  }

  /** The line from the saved position on is uncut and NUL-free. */
  ghost predicate Uncut(b: seq<char>, save: nat) {
    save < |b| && b[|b| - 1] == '\0' && forall k :: save <= k < |b| - 1 ==> b[k] != '\0'
  }

  /** Between two turns of the loop: the words stored, the pointer in hand and what is left to cut make up
      the words of the line. */
  ghost predicate Cutting(b: seq<char>, args: seq<Option<nat>>, words: seq<string>, token: Option<nat>, save: nat) {
    && Uncut(b, save) && Stored(b, args, words, save)
    && (token.None? <==> |args| == |words|)
    && (token.Some? ==>
          && PointsAt(b, token.value, words[|args|], save)
          && words[|args| + 1..] == Tokens(b[save..|b| - 1]))
  }

  /** One call of strtok, on a buffer that was `b` before it and is `b'` after it. */
  lemma CutNext(b: seq<char>, b': seq<char>, args: seq<Option<nat>>, words: seq<string>, from: nat,
                token: Option<nat>, save: nat, stop: nat)
    requires Uncut(b, from) && Stored(b, args, words, from) && words[|args|..] == Tokens(b[from..|b| - 1])
    requires |b'| == |b| && from <= save <= |b| - 1 && b'[|b| - 1] == '\0'
    requires b'[..from] == b[..from] && b'[save..|b| - 1] == b[save..|b| - 1]
    requires token.None? ==> Tokens(b[from..|b| - 1]) == []
    requires token.Some? ==>
              && from <= token.value < stop <= |b| - 1 && b'[stop] == '\0'
              && save == (if stop < |b| - 1 then stop + 1 else |b| - 1)
              && (forall k :: token.value <= k < stop ==> b'[k] != '\0')
              && Tokens(b[from..|b| - 1]) == [b'[token.value..stop]] + Tokens(b'[save..|b| - 1])
    ensures Cutting(b', args, words, token, save)
  {
    StoredFrame(b, b', args, words, from, save);
    UncutFrame(b, b', from, save);
    if token.Some? {
      var rest := words[|args|..];
      assert rest[0] == words[|args|] && rest[1..] == words[|args| + 1..];
      CutWord(b', token.value, save, stop);
    }
  }

  lemma UncutFrame(b: seq<char>, b': seq<char>, from: nat, save: nat)
    requires Uncut(b, from) && |b'| == |b| && from <= save <= |b| - 1 && b'[|b| - 1] == '\0'
    requires b'[save..|b| - 1] == b[save..|b| - 1]
    ensures Uncut(b', save)
  {
    forall k | save <= k < |b| - 1 ensures b'[k] != '\0' {
      assert b'[k] == b'[save..|b| - 1][k - save] == b[save..|b| - 1][k - save] == b[k];
    }
  }

  lemma CutWord(b: seq<char>, p: nat, save: nat, stop: nat)
    requires p < stop < |b| && b[stop] == '\0' && forall k :: p <= k < stop ==> b[k] != '\0'
    requires save == if stop < |b| - 1 then stop + 1 else |b| - 1
    ensures PointsAt(b, p, b[p..stop], save)
  {
  }

  /** strtok as the loop of parse_input uses it: the next of `words`, if one is left. */
  method NextArgument(input: array<char>, from: nat, ghost words: seq<string>, ghost args: seq<Option<nat>>)
    returns (token: Option<nat>, save: nat)
    requires Uncut(input[..], from) && Stored(input[..], args, words, from)
    requires words[|args|..] == Tokens(input[..][from..input.Length - 1])
    modifies input
    ensures Cutting(input[..], args, words, token, save)
  {
    ghost var b, end, stop := input[..], input.Length - 1, 0;
    token, save, stop := Strtok(input, from, end);
    ghost var b' := input[..];
    assert b[from..end] == old(input[from..end]);
    assert b'[..from] == b[..from] && b'[save..end] == input[save..end] && b[save..end] == old(input[save..end]);
    assert token.Some? ==> b'[token.value..stop] == input[token.value..stop];
    CutNext(b, b', args, words, from, token, save, stop);
  }

  /** The body of the loop: store the pointer in hand, growing the array when needed, and cut the next. */
  method StoreArgument(input: array<char>, args: array<Option<nat>>, argCount: nat, token: Option<nat>, save: nat,
                       ghost words: seq<string>)
    returns (args': array<Option<nat>>, token': Option<nat>, save': nat)
    requires argCount <= args.Length == Capacity(argCount)
    requires token.Some? && Cutting(input[..], args[..argCount], words, token, save)
    modifies input, args
    ensures args' == args || fresh(args')
    ensures argCount + 1 <= args'.Length == Capacity(argCount + 1)
    ensures Cutting(input[..], args'[..argCount + 1], words, token', save')
  {
    ghost var stored := args[..argCount] + [token];
    assert Stored(input[..], stored, words, save);
    token', save' := NextArgument(input, save, words, stored);
    args' := Append(args, argCount, token);
  }

  /** The first call of strtok, with no argument stored yet. */
  method FirstArgument(input: array<char>, ghost words: seq<string>)
    returns (args: array<Option<nat>>, token: Option<nat>, save: nat)
    requires input.Length > 0 && Uncut(input[..], 0)
    requires words == Tokens(input[..][0..input.Length - 1])
    modifies input
    ensures fresh(args) && args.Length == INITIAL_ARG_SIZE
    ensures Cutting(input[..], args[..0], words, token, save)
  {
    token, save := NextArgument(input, 0, words, []);
    args := new Option<nat>[INITIAL_ARG_SIZE](_ => None);
    assert args[..0] == [];
  }

  /** Everything parse_input does but store the NULL. */
  method CutArguments(input: array<char>) returns (args: array<Option<nat>>, argCount: nat)
    requires input.Length > 0 && Uncut(input[..], 0)
    modifies input
    ensures fresh(args) && argCount <= args.Length == Capacity(argCount)
    ensures AreStrings(input[..], args[..argCount], Tokens(old(input[..][0..input.Length - 1])))
  {
    ghost var words := Tokens(input[..][0..input.Length - 1]);
    var token, save;
    args, token, save := FirstArgument(input, words);
    argCount := 0;
    while token.Some?
      invariant fresh(args) && argCount <= args.Length == Capacity(argCount)
      invariant Cutting(input[..], args[..argCount], words, token, save)
      decreases |words| - argCount
    {
      args, token, save := StoreArgument(input, args, argCount, token, save, words);
      argCount := argCount + 1;
    }
    StoredStrings(input[..], args[..argCount], words, save);
  }

  /** parse_input. The returned array holds pointers into the line, which has been cut in place; they keep
      pointing at the tokens through every growth of the array. NULL is stored behind the last one when
      there is a slot for it (TerminatorFits says when). */
  method ParseInput(input: array<char>) returns (args: array<Option<nat>>, argCount: nat)
    requires input.Length > 0 && Uncut(input[..], 0)
    modifies input
    ensures fresh(args) && argCount <= args.Length == Capacity(argCount)
    ensures AreStrings(input[..], args[..argCount], Tokens(old(input[..input.Length - 1])))
    ensures argCount < args.Length ==> args[argCount] == None
  {
    assert input[..][0..input.Length - 1] == input[..input.Length - 1];
    args, argCount := CutArguments(input);
    if argCount < args.Length {
      ghost var stored := args[..argCount];
      args[argCount] := None;
      assert args[..argCount] == stored;
    }
  }
}
