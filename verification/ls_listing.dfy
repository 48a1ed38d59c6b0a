/** process_and_sort and the time column of print_output: which entries are listed, in which order. */
module Listing {
  import opened Options

  datatype Stat = Stat(mtime: int, atime: int, ctime: int)

  /** A directory entry as readdir returns it, with what lstat says about it, if anything. */
  datatype DirEntry = DirEntry(name: string, stat: Option<Stat>)

  datatype FileInfo = FileInfo(name: string, st: Stat)

  /** The options that matter here: -l -a -t -u -c -f. */
  datatype Flags = Flags(long: bool, all: bool, byTime: bool, useAtime: bool, useCtime: bool, unsorted: bool)

  const INITIAL_CAPACITY: nat := 64

  // ---- Filtering --------------------------------------------------------------------------------------

  /** Hidden entries need -a or -f, and an entry that cannot be examined is skipped. */
  predicate Listed(e: DirEntry, flags: Flags) {
    e.stat.Some? && (flags.all || flags.unsorted || e.name == "" || e.name[0] != '.')
  }

  /** The listed entries, in directory order. */
  function Kept(entries: seq<DirEntry>, flags: Flags): seq<FileInfo> {
    if entries == [] then []
    else
      var last := entries[|entries| - 1];
      Kept(entries[..|entries| - 1], flags) + if Listed(last, flags) then [FileInfo(last.name, last.stat.value)] else []
  }

  // ---- Comparators ------------------------------------------------------------------------------------

  const TWO31: int := 0x8000_0000
  const TWO32: int := 0x1_0000_0000

  /** The conversion of a time difference to the comparator's int. */
  function ToInt(d: int): (r: int)
    ensures -TWO31 <= r < TWO31
  {
    (d + TWO31) % TWO32 - TWO31
  }

  datatype Field = Mtime | Atime | Ctime

  function TimeOf(st: Stat, field: Field): int {
    match field case Mtime => st.mtime case Atime => st.atime case Ctime => st.ctime
  }

  datatype Key = ByName | ByTime(field: Field)

  /** strcmp, up to the magnitude of its result. */
  function StrCmp(a: string, b: string): int {
    if a == [] && b == [] then 0
    else if a == [] then -1
    else if b == [] then 1
    else if a[0] != b[0] then (if a[0] < b[0] then -1 else 1)
    else StrCmp(a[1..], b[1..])
  }

  function Compare(key: Key, a: FileInfo, b: FileInfo): int {
    match key
    case ByName => StrCmp(a.name, b.name)
    case ByTime(field) => ToInt(TimeOf(b.st, field) - TimeOf(a.st, field))
  }

  /** The comparator process_and_sort passes to qsort; without one the order is the directory's. */
  function SortKey(flags: Flags): Option<Key> {
    if flags.unsorted then None
    else if flags.byTime then Some(ByTime(if flags.useAtime then Atime else if flags.useCtime then Ctime else Mtime))
    else if flags.useAtime && !flags.long then Some(ByTime(Atime))
    else if flags.useCtime && !flags.long then Some(ByTime(Ctime))
    else if flags.long then Some(ByName)
    else None
  }

  /** The field print_output shows in a long listing. */
  function ShownField(flags: Flags): Field {
    if flags.byTime then
      if flags.useAtime then Atime else if flags.useCtime then Ctime else Mtime
    else if flags.useAtime then Atime
    else if flags.useCtime then Ctime
    else Mtime
  }

  /** In a long listing that is not -f, the rows are sorted by the time they show exactly when -t is given. */
  lemma SortedByShownTime(flags: Flags)
    requires flags.long && !flags.unsorted
    ensures SortKey(flags) == Some(ByTime(ShownField(flags))) <==> flags.byTime
  {
  }

  /** When the comparator's int has the sign of the difference: within 2^31 of zero, and beyond it wherever
      the conversion happens to wrap back to the right side. */
  lemma ToIntSign(d: int)
    ensures -0x8000_0000 <= d < 0x8000_0000 ==> ToInt(d) == d
    ensures -0x8000_0000 <= ToInt(d) < 0x8000_0000 && (ToInt(d) - d) % 0x1_0000_0000 == 0
    ensures (ToInt(d) > 0 <==> d > 0) && (ToInt(d) < 0 <==> d < 0)
            <==> d == 0 || (if d > 0 then 0 < d % TWO32 < TWO31 else d % TWO32 >= TWO31)
  {
  }

  /** Two files 2^31 seconds apart: the comparator puts each before the other. */
  lemma ComparatorContradicts()
    ensures var a, b := FileInfo("a", Stat(0, 0, 0)), FileInfo("b", Stat(TWO31, 0, 0));
            Compare(ByTime(Mtime), a, b) < 0 && Compare(ByTime(Mtime), b, a) < 0
  {
  }

  // ---- Sorting ----------------------------------------------------------------------------------------

  /** `x` in front of the first element the comparator does not put before it. */
  function Insert(key: Key, x: FileInfo, s: seq<FileInfo>): seq<FileInfo> {
    if s == [] || Compare(key, x, s[0]) <= 0 then [x] + s else [s[0]] + Insert(key, x, s[1..])
  }

  /** qsort with the comparator for `key`. */
  function Sort(key: Key, s: seq<FileInfo>): seq<FileInfo> {
    if s == [] then [] else Insert(key, s[0], Sort(key, s[1..]))
  }

  lemma {:induction false} InsertPermutes(key: Key, x: FileInfo, s: seq<FileInfo>)
    ensures multiset(Insert(key, x, s)) == multiset(s) + multiset{x}
  {
    if s != [] {
      assert s == [s[0]] + s[1..];
      InsertPermutes(key, x, s[1..]);
    }
  }

  lemma {:induction false} SortPermutes(key: Key, s: seq<FileInfo>)
    ensures multiset(Sort(key, s)) == multiset(s)
  {
    if s != [] {
      SortPermutes(key, s[1..]);
      InsertPermutes(key, s[0], Sort(key, s[1..]));
      assert s == [s[0]] + s[1..];
    }
  }

  /** Newest first by the given field. */
  ghost predicate NewestFirst(field: Field, s: seq<FileInfo>) {
    forall i, j :: 0 <= i < j < |s| ==> TimeOf(s[i].st, field) >= TimeOf(s[j].st, field)
  }

  /** All times of the field lie in a window shorter than 2^31 seconds. */
  ghost predicate InWindow(field: Field, s: seq<FileInfo>) {
    forall x, y :: x in s && y in s ==> TimeOf(x.st, field) - TimeOf(y.st, field) < TWO31
  }

  /** Within the window the comparator tells which time is later. */
  lemma CompareTimes(field: Field, x: FileInfo, y: FileInfo)
    requires -TWO31 < TimeOf(y.st, field) - TimeOf(x.st, field) < TWO31
    ensures Compare(ByTime(field), x, y) > 0 <==> TimeOf(y.st, field) > TimeOf(x.st, field)
  {
    ToIntSign(TimeOf(y.st, field) - TimeOf(x.st, field));
  }

  lemma {:induction false} InsertMembers(key: Key, x: FileInfo, s: seq<FileInfo>, y: FileInfo)
    ensures y in Insert(key, x, s) <==> y == x || y in s
  {
    if s != [] {
      InsertMembers(key, x, s[1..], y);
    }
  }

  lemma {:induction false} InsertNewestFirst(field: Field, x: FileInfo, s: seq<FileInfo>)
    requires NewestFirst(field, s)
    requires forall y :: y in s ==> -TWO31 < TimeOf(y.st, field) - TimeOf(x.st, field) < TWO31
    ensures NewestFirst(field, Insert(ByTime(field), x, s))
  {
    if s != [] {
      CompareTimes(field, x, s[0]);
      if Compare(ByTime(field), x, s[0]) > 0 {
        var rest := Insert(ByTime(field), x, s[1..]);
        InsertNewestFirst(field, x, s[1..]);
        forall k | 0 <= k < |rest| ensures TimeOf(s[0].st, field) >= TimeOf(rest[k].st, field) {
          InsertMembers(ByTime(field), x, s[1..], rest[k]);
        }
      }
    }
  }

  lemma {:induction false} SortNewestFirst(field: Field, s: seq<FileInfo>)
    requires InWindow(field, s)
    ensures NewestFirst(field, Sort(ByTime(field), s))
  {
    if s != [] {
      assert forall y :: y in s[1..] ==> y in s;
      SortNewestFirst(field, s[1..]);
      SortPermutes(ByTime(field), s[1..]);
      var rest := Sort(ByTime(field), s[1..]);
      forall y | y in rest
        ensures -TWO31 < TimeOf(y.st, field) - TimeOf(s[0].st, field) < TWO31
      {
        assert y in multiset(rest);
        assert y in s && s[0] in s;
      }
      InsertNewestFirst(field, s[0], rest);
    }
  }

  lemma {:induction false} StrCmpTransitive(a: string, b: string, c: string)
    requires StrCmp(a, b) <= 0 && StrCmp(b, c) <= 0
    ensures StrCmp(a, c) <= 0
  {
    if a != [] && b != [] && c != [] && a[0] == b[0] == c[0] {
      StrCmpTransitive(a[1..], b[1..], c[1..]);
    }
  }

  lemma {:induction false} StrCmpSign(a: string, b: string)
    ensures StrCmp(a, b) == -StrCmp(b, a)
    ensures StrCmp(a, b) == 0 <==> a == b
  {
    if a != [] && b != [] && a[0] == b[0] {
      StrCmpSign(a[1..], b[1..]);
      assert a == [a[0]] + a[1..] && b == [b[0]] + b[1..];
    }
  }

  /** `a` comes first in dictionary order: it ends, or has the smaller character, where they first differ. */
  ghost predicate Before(a: string, b: string) {
    exists k: nat :: SplitsAt(a, b, k) && (k == |a| || a[k] < b[k])
  }

  /** The strings agree up to `k`, and `b` goes on there. */
  ghost predicate SplitsAt(a: string, b: string, k: nat) {
    k <= |a| && k < |b| && a[..k] == b[..k]
  }

  lemma SplitTail(a: string, b: string, k: nat)
    requires a != [] && b != [] && a[0] == b[0]
    ensures SplitsAt(a, b, k + 1) <==> SplitsAt(a[1..], b[1..], k)
  {
    if k + 1 <= |a| && k + 1 < |b| {
      assert a[..k + 1] == [a[0]] + a[1..][..k] && b[..k + 1] == [b[0]] + b[1..][..k];
      assert a[..k + 1][1..] == a[1..][..k] && b[..k + 1][1..] == b[1..][..k];
    }
  }

  lemma BeforeTail(a: string, b: string)
    requires a != [] && b != [] && a[0] == b[0]
    ensures Before(a, b) <==> Before(a[1..], b[1..])
  {
    if Before(a, b) {
      var k: nat :| SplitsAt(a, b, k) && (k == |a| || a[k] < b[k]);
      SplitTail(a, b, k - 1);
    }
    if Before(a[1..], b[1..]) {
      var k: nat :| SplitsAt(a[1..], b[1..], k) && (k == |a[1..]| || a[1..][k] < b[1..][k]);
      SplitTail(a, b, k);
    }
  }

  lemma SplitHead(a: string, b: string, k: nat)
    requires k > 0 && SplitsAt(a, b, k)
    ensures a != [] && b != [] && a[0] == b[0]
  {
    assert a[0] == a[..k][0] && b[0] == b[..k][0];
  }

  lemma BeforeHead(a: string, b: string)
    requires a == [] || b == [] || a[0] != b[0]
    ensures Before(a, b) <==> b != [] && (a == [] || a[0] < b[0])
  {
    if b != [] {
      assert SplitsAt(a, b, 0);
    }
    if Before(a, b) {
      var k: nat :| SplitsAt(a, b, k) && (k == |a| || a[k] < b[k]);
      if k > 0 {
        SplitHead(a, b, k);
      }
    }
  }

  /** The comparator of names is dictionary order. */
  lemma {:induction false} StrCmpIsBefore(a: string, b: string)
    ensures StrCmp(a, b) < 0 <==> Before(a, b)
  {
    if a != [] && b != [] && a[0] == b[0] {
      StrCmpIsBefore(a[1..], b[1..]);
      BeforeTail(a, b);
    } else {
      BeforeHead(a, b);
    }
  }

  ghost predicate NameOrder(s: seq<FileInfo>) {
    forall i, j :: 0 <= i < j < |s| ==> StrCmp(s[i].name, s[j].name) <= 0
  }

  lemma {:induction false} InsertNameOrder(x: FileInfo, s: seq<FileInfo>)
    requires NameOrder(s)
    ensures NameOrder(Insert(ByName, x, s))
  {
    if s != [] {
      if Compare(ByName, x, s[0]) <= 0 {
        forall k | 0 <= k < |s| ensures StrCmp(x.name, s[k].name) <= 0 {
          if k > 0 {
            StrCmpTransitive(x.name, s[0].name, s[k].name);
          }
        }
      } else {
        var rest := Insert(ByName, x, s[1..]);
        InsertNameOrder(x, s[1..]);
        StrCmpSign(x.name, s[0].name);
        forall k | 0 <= k < |rest| ensures StrCmp(s[0].name, rest[k].name) <= 0 {
          InsertMembers(ByName, x, s[1..], rest[k]);
        }
      }
    }
  }

  lemma {:induction false} SortNameOrder(s: seq<FileInfo>)
    ensures NameOrder(Sort(ByName, s))
  {
    if s != [] {
      SortNameOrder(s[1..]);
      InsertNameOrder(s[0], Sort(ByName, s[1..]));
    }
  }

  // ---- process_and_sort -------------------------------------------------------------------------------

  /** What process_and_sort leaves in the array. */
  function List(entries: seq<DirEntry>, flags: Flags): seq<FileInfo> {
    var kept := Kept(entries, flags);
    match SortKey(flags) case Some(key) => Sort(key, kept) case None => kept
  }

  /** Room for one more entry: an array twice as large when the old one is used up. */
  method Reserve(files: array<FileInfo>, count: nat) returns (files': array<FileInfo>)
    requires count <= files.Length && files.Length > 0
    ensures files' == files || fresh(files')
    ensures count < files'.Length
    ensures files'.Length == if count < files.Length then files.Length else 2 * files.Length
    ensures files'[..count] == files[..count]
  {
    files' := files;
    if count >= files.Length {
      files' := new FileInfo[2 * files.Length](_ => FileInfo("", Stat(0, 0, 0)));
      forall k | 0 <= k < files.Length {
        files'[k] := files[k];
      }
    }
  }

  /** The capacity is the initial one, or was doubled when the count had reached it. */
  predicate Tight(count: nat, capacity: nat) {
    count <= capacity && capacity > 0 && (capacity == INITIAL_CAPACITY || capacity <= 2 * count)
  }

  /** qsort on the filled part of the array. */
  method SortInPlace(files: array<FileInfo>, count: nat, key: Key)
    requires count <= files.Length
    modifies files
    ensures files[..count] == Sort(key, old(files[..count]))
  {
    ghost var before := files[..count];
    var i := count;
    assert before[count..] == [] && files[count..count] == [];
    while i > 0
      invariant 0 <= i <= count
      invariant files[..i] == before[..i]
      invariant files[i..count] == Sort(key, before[i..])
      decreases i
    {
      i := i - 1;
      assert before[i..][1..] == before[i + 1..] && before[i..][0] == before[i];
      ghost var rest := files[i + 1..count];
      assert files[..i] == files[..i + 1][..i];
      assert files[i] == files[..i + 1][i] == before[i];
      InsertInPlace(files, i, count, key);
    }
    assert before[0..] == before && files[0..count] == files[..count];
  }

  /** Where insertion stops. */
  lemma {:induction false} InsertAt(key: Key, x: FileInfo, s: seq<FileInfo>, m: nat)
    requires m <= |s| && (forall k :: 0 <= k < m ==> Compare(key, x, s[k]) > 0)
    requires m < |s| ==> Compare(key, x, s[m]) <= 0
    ensures Insert(key, x, s) == s[..m] + [x] + s[m..]
  {
    if m > 0 {
      InsertAt(key, x, s[1..], m - 1);
      assert s[..m] == [s[0]] + s[1..][..m - 1];
      assert s[1..][m - 1..] == s[m..];
    }
  }

  /** The files before and after the first `j - i` of those behind `i` have moved one place down. */
  ghost predicate Shifted(before: seq<FileInfo>, files: array<FileInfo>, i: nat, j: nat)
    reads files
  {
    && |before| == files.Length && i <= j < files.Length
    && (forall k :: i <= k < j ==> files[k] == before[k + 1])
    && (forall k :: 0 <= k < i || j < k < files.Length ==> files[k] == before[k])
  }

  /** Moving the elements that `x` does not precede one place down. */
  method ShiftDown(files: array<FileInfo>, i: nat, count: nat, key: Key, x: FileInfo) returns (j: nat)
    requires i < count <= files.Length
    modifies files
    ensures i <= j < count && Shifted(old(files[..]), files, i, j)
    ensures forall k :: i < k <= j ==> Compare(key, x, old(files[..])[k]) > 0
    ensures j + 1 < count ==> Compare(key, x, old(files[..])[j + 1]) <= 0
  {
    ghost var before := files[..];
    j := i;
    while j + 1 < count && Compare(key, x, files[j + 1]) > 0
      invariant i <= j < count && Shifted(before, files, i, j)
      invariant forall k :: i < k <= j ==> Compare(key, x, before[k]) > 0
      decreases count - j
    {
      files[j] := files[j + 1];
      j := j + 1;
    }
  }

  /** Where the insertion into the files behind `i` stops. */
  lemma InsertedAt(key: Key, x: FileInfo, before: seq<FileInfo>, i: nat, j: nat, count: nat)
    requires i <= j < count <= |before|
    requires forall k :: i < k <= j ==> Compare(key, x, before[k]) > 0
    requires j + 1 < count ==> Compare(key, x, before[j + 1]) <= 0
    ensures Insert(key, x, before[i + 1..count]) == before[i + 1..j + 1] + [x] + before[j + 1..count]
  {
    var rest := before[i + 1..count];
    forall k | 0 <= k < j - i ensures Compare(key, x, rest[k]) > 0 {
      assert rest[k] == before[i + 1 + k];
    }
    InsertAt(key, x, rest, j - i);
    assert rest[..j - i] == before[i + 1..j + 1] && rest[j - i..] == before[j + 1..count];
  }

  lemma Assembled(before: seq<FileInfo>, after: seq<FileInfo>, x: FileInfo, i: nat, j: nat, count: nat)
    requires |before| == |after| && i <= j < count <= |before| && after[j] == x
    requires forall k :: i <= k < j ==> after[k] == before[k + 1]
    requires forall k :: j < k < count ==> after[k] == before[k]
    ensures after[i..count] == before[i + 1..j + 1] + [x] + before[j + 1..count]
  {
  }

  /** Moving the element at `i` to its place in the sorted part behind it. */
  method InsertInPlace(files: array<FileInfo>, i: nat, count: nat, key: Key)
    requires i < count <= files.Length
    modifies files
    ensures files[..i] == old(files[..i])
    ensures files[i..count] == Insert(key, old(files[i]), old(files[i + 1..count]))
  {
    var x := files[i];
    ghost var before := files[..];
    var j := ShiftDown(files, i, count, key, x);
    InsertedAt(key, x, before, i, j, count);
    files[j] := x;
    Assembled(before, files[..], x, i, j, count);
    assert files[i..count] == files[..][i..count];
  }

  /** process_and_sort, without -d. */
  method ProcessAndSort(entries: seq<DirEntry>, flags: Flags) returns (files: array<FileInfo>, count: nat)
    ensures count <= files.Length && (files.Length == 64 || files.Length <= 2 * count)
    ensures files[..count] == List(entries, flags)
  {
    files := new FileInfo[INITIAL_CAPACITY](_ => FileInfo("", Stat(0, 0, 0)));
    count := 0;
    var n := 0;
    assert files[..0] == Kept(entries[..0], flags);
    while n < |entries|
      invariant 0 <= n <= |entries| && fresh(files) && Tight(count, files.Length)
      invariant files[..count] == Kept(entries[..n], flags)
    {
      var entry := entries[n];
      assert entries[..n + 1][..n] == entries[..n];
      n := n + 1;
      if !flags.all && !flags.unsorted && entry.name != "" && entry.name[0] == '.' {
        continue;
      }
      files := Reserve(files, count);
      if entry.stat.None? {
        continue;
      }
      files[count] := FileInfo(entry.name, entry.stat.value);
      count := count + 1;
    }
    assert entries[..n] == entries;
    match SortKey(flags) {
      case Some(key) => SortInPlace(files, count, key);
      case None =>
    }
  }

  /** When a listing is in time order, and by which time: never with -f; with -t always; with -u or -c alone
      only without -l. The time is then the one print_output would show. */
  lemma TimeKey(flags: Flags, field: Field)
    ensures SortKey(flags) == Some(ByTime(field))
            <==> !flags.unsorted && (flags.byTime || (!flags.long && (flags.useAtime || flags.useCtime)))
                 && field == ShownField(flags)
  {
  }

  /** The time shown is the access time exactly with -u, and the change time exactly with -c and not -u,
      whether or not -t is given. */
  lemma ShownTime(flags: Flags, st: Stat)
    ensures TimeOf(st, ShownField(flags))
         == if flags.useAtime then st.atime else if flags.useCtime then st.ctime else st.mtime
  {
  }

  /** Time-ordered listing. Whenever the listing is in time order, with -l and -t but not -f in particular, it
      is a permutation of the entries kept by the filter, and the times it shows never increase, provided
      they lie within a window shorter than 2^31 seconds. */
  lemma TimeOrdered(entries: seq<DirEntry>, flags: Flags)
    requires !flags.unsorted && (flags.byTime || (!flags.long && (flags.useAtime || flags.useCtime)))
    requires InWindow(ShownField(flags), Kept(entries, flags))
    ensures multiset(List(entries, flags)) == multiset(Kept(entries, flags))
    ensures forall i, j :: 0 <= i < j < |List(entries, flags)| ==>
              var a, b := List(entries, flags)[i].st, List(entries, flags)[j].st;
              if flags.useAtime then a.atime >= b.atime
              else if flags.useCtime then a.ctime >= b.ctime
              else a.mtime >= b.mtime
  {
    TimeKey(flags, ShownField(flags));
    SortPermutes(ByTime(ShownField(flags)), Kept(entries, flags));
    SortNewestFirst(ShownField(flags), Kept(entries, flags));
    var files := List(entries, flags);
    forall i, j | 0 <= i < j < |files|
      ensures var a, b := files[i].st, files[j].st;
              if flags.useAtime then a.atime >= b.atime
              else if flags.useCtime then a.ctime >= b.ctime
              else a.mtime >= b.mtime
    {
      ShownTime(flags, files[i].st);
      ShownTime(flags, files[j].st);
    }
  }

  /** Any option set lists exactly the kept entries. */
  lemma ListPermutes(entries: seq<DirEntry>, flags: Flags)
    ensures multiset(List(entries, flags)) == multiset(Kept(entries, flags))
  {
    match SortKey(flags)
    case Some(key) => SortPermutes(key, Kept(entries, flags));
    case None =>
  }

  /** Name-ordered listing, exactly: the comparator is the one for names when -l is given without -t and -f,
      whatever -u and -c say, and then the names come in dictionary order. */
  lemma NameOrdered(entries: seq<DirEntry>, flags: Flags)
    ensures SortKey(flags) == Some(ByName) <==> flags.long && !flags.byTime && !flags.unsorted
    ensures SortKey(flags) == Some(ByName) ==>
              forall i, j :: 0 <= i < j < |List(entries, flags)| ==>
                var a, b := List(entries, flags)[i].name, List(entries, flags)[j].name;
                a == b || Before(a, b)
  {
    if SortKey(flags) == Some(ByName) {
      var files := List(entries, flags);
      SortNameOrder(Kept(entries, flags));
      forall i, j | 0 <= i < j < |files|
        ensures files[i].name == files[j].name || Before(files[i].name, files[j].name)
      {
        StrCmpSign(files[i].name, files[j].name);
        StrCmpIsBefore(files[i].name, files[j].name);
      }
    }
  }

  // ---- What is listed ---------------------------------------------------------------------------------

  /** An entry that is neither hidden from this listing by its name nor impossible to examine. */
  predicate Visible(name: string, flags: Flags) {
    flags.all || flags.unsorted || name == "" || name[0] != '.'
  }

  /** How often the filter keeps a file: as often as the directory has it, if it is visible. */
  lemma {:induction false} KeptCount(entries: seq<DirEntry>, flags: Flags, f: FileInfo)
    ensures multiset(Kept(entries, flags))[f]
         == if Visible(f.name, flags) then multiset(entries)[DirEntry(f.name, Some(f.st))] else 0
  {
    if entries != [] {
      var init, last := entries[..|entries| - 1], entries[|entries| - 1];
      assert entries == init + [last];
      KeptCount(init, flags, f);
      if Listed(last, flags) {
        var file := FileInfo(last.name, last.stat.value);
        assert multiset(Kept(entries, flags)) == multiset(Kept(init, flags)) + multiset{file};
      } else {
        assert Kept(entries, flags) == Kept(init, flags) + [] == Kept(init, flags);
      }
    }
  }

  /** The directory position of every kept file, in order. */
  lemma {:induction false} KeptInOrder(entries: seq<DirEntry>, flags: Flags) returns (at: seq<nat>)
    ensures |at| == |Kept(entries, flags)|
    ensures forall k :: 0 <= k < |at| ==> at[k] < |entries| && (k > 0 ==> at[k - 1] < at[k])
    ensures forall k :: 0 <= k < |at| ==>
              entries[at[k]] == DirEntry(Kept(entries, flags)[k].name, Some(Kept(entries, flags)[k].st))
  {
    if entries == [] {
      at := [];
    } else {
      var init, last := entries[..|entries| - 1], entries[|entries| - 1];
      at := KeptInOrder(init, flags);
      if Listed(last, flags) {
        at := at + [|init|];
      }
    }
  }

  /** What is listed, exactly. Every visible entry that can be examined is listed as often as the directory has
      it, and nothing else is: without -a and -f no name beginning with a dot, with either of them all. With
      -f, or with no order asked for, the listing is in directory order. */
  lemma ListedExactly(entries: seq<DirEntry>, flags: Flags, f: FileInfo)
    ensures multiset(List(entries, flags))[f]
         == if flags.all || flags.unsorted || f.name == "" || f.name[0] != '.'
            then multiset(entries)[DirEntry(f.name, Some(f.st))] else 0
    ensures flags.unsorted || !(flags.long || flags.byTime || flags.useAtime || flags.useCtime) ==>
              exists at: seq<nat> ::
                && |at| == |List(entries, flags)|
                && (forall k :: 0 <= k < |at| ==> at[k] < |entries| && (k > 0 ==> at[k - 1] < at[k]))
                && (forall k :: 0 <= k < |at| ==>
                      entries[at[k]] == DirEntry(List(entries, flags)[k].name, Some(List(entries, flags)[k].st)))
  {
    ListPermutes(entries, flags);
    KeptCount(entries, flags, f);
    var at := KeptInOrder(entries, flags);
  }
}
