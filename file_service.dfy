/** The file service (services/file/file.service.js): full paths, path checks, reading a
    file as lines, and writing the count report as sorted `key:value` lines. The file
    system is a parameter: a map from full paths to what they name. */
module FileService {
  import opened Common
  import opened Seqs
  import opened Text
  import opened Constants

  /** What a full path names: a file with its content, or a directory. */
  datatype Entry = File(content: string) | Directory

  /** The file system as the service sees it, by full path. */
  type FileSystem = map<string, Entry>

  /** getFullPath: the working directory followed by the path, with a separator put in
      front of the path unless it already starts with one. */
  function GetFullPath(cwd: string, path: string): (r: string)
    ensures StartsWith(r, cwd)
    ensures r[|cwd|..] == "/" + (if StartsWith(path, "/") then path[1..] else path)
  {
    cwd + (if StartsWith(path, DirSeparator) then path else DirSeparator + path)
  }

  /** Two separators at index i of s. */
  predicate DoubleSlashAt(s: string, i: int) {
    0 <= i && i + 1 < |s| && s[i] == '/' && s[i + 1] == '/'
  }

  /** For a working directory that does not end in a separator, the join adds no "//":
      the full path has two separators at the join exactly when the path itself started
      with "//"; and it is longer than the path. */
  lemma GetFullPathJoin(cwd: string, path: string)
    requires cwd != [] && cwd[|cwd| - 1] != '/'
    ensures !DoubleSlashAt(GetFullPath(cwd, path), |cwd| - 1)
    ensures DoubleSlashAt(GetFullPath(cwd, path), |cwd|) <==> StartsWith(path, "//")
    ensures |GetFullPath(cwd, path)| > |path|
  {
    var r := GetFullPath(cwd, path);
    assert r[|cwd| - 1] == cwd[|cwd| - 1];
    if StartsWith(path, "/") {
      assert r[|cwd|..] == path;
      if |path| >= 2 {
        assert r[|cwd| + 1] == path[1];
      }
    } else {
      assert r[|cwd|..] == "/" + path;
      if path != [] {
        assert r[|cwd| + 1] == path[0];
        assert path[0] != '/';
      }
    }
  }

  /** A relative path with or without its leading separator names the same full path. */
  lemma GetFullPathLeadingSlash(cwd: string, path: string)
    requires !StartsWith(path, "/")
    ensures GetFullPath(cwd, "/" + path) == GetFullPath(cwd, path)
  {
    assert StartsWith("/" + path, "/");
  }

  /** checkIfPathExists: rejects a missing or empty path before looking at the file
      system, then builds the full path with the same formula as getFullPath and returns
      what it names, or fails when nothing is there. */
  function CheckIfPathExists(cwd: string, fs: FileSystem, path: Option<string>): (r: Result<Entry>)
    ensures (path.None? || path.value == "") <==> r == Failure(InvalidPath)
    ensures path.Some? && path.value != "" ==>
      && (r.Success? <==> GetFullPath(cwd, path.value) in fs)
      && (r.Success? ==> r.value == fs[GetFullPath(cwd, path.value)])
      && (r.Failure? ==> r.error == NotFound)
  {
    if path.None? || path.value == "" then Failure(InvalidPath)
    else
      var fullpath := cwd + (if StartsWith(path.value, DirSeparator) then path.value else DirSeparator + path.value);
      if fullpath in fs then Success(fs[fullpath]) else Failure(NotFound)
  }

  /** validatePath: rejects a missing or empty path, then requires something to exist at
      the full path; resolves with the path. */
  function ValidatePath(cwd: string, fs: FileSystem, path: Option<string>): (r: Result<string>)
    ensures (path.None? || path.value == "") <==> r == Failure(InvalidPath)
    ensures r.Success? <==> path.Some? && path.value != "" && GetFullPath(cwd, path.value) in fs
    ensures r.Success? ==> r.value == path.value
  {
    if path.None? || path.value == "" then Failure(InvalidPath)
    else if GetFullPath(cwd, path.value) in fs then Success(path.value)
    else Failure(NotFound)
  }

  /** The content-to-lines step of readFile: trim, then split on new lines. */
  function Lines(content: string): (r: seq<string>)
    ensures |r| >= 1
    ensures forall i :: 0 <= i < |r| ==> '\n' !in r[i]
    ensures Join(r, "\n") == Trim(content)
  {
    Split(Trim(content), '\n')
  }

  /** Reading back joined lines gives the lines, when they hold no new line and the
      joined text neither starts nor ends with white space. */
  lemma LinesOfJoin(parts: seq<string>)
    requires |parts| >= 1
    requires forall i :: 0 <= i < |parts| ==> '\n' !in parts[i]
    requires var s := Join(parts, "\n"); s == [] || (!IsWhitespace(s[0]) && !IsWhitespace(s[|s| - 1]))
    ensures Lines(Join(parts, "\n")) == parts
  {
    var s := Join(parts, "\n");
    assert Trim(s) == s;
    SplitJoin(parts, '\n');
  }

  /** readFile: the path must be valid and exist, and name a file; its content is
      returned as lines. */
  function ReadFile(cwd: string, fs: FileSystem, path: Option<string>): (r: Result<seq<string>>)
    ensures (path.None? || path.value == "") ==> r == Failure(InvalidPath)
    ensures path.Some? && path.value != "" && GetFullPath(cwd, path.value) !in fs ==> r == Failure(NotFound)
    ensures r.Success? <==>
      path.Some? && path.value != "" && GetFullPath(cwd, path.value) in fs && fs[GetFullPath(cwd, path.value)].File?
    ensures r.Success? ==> r.value == Lines(fs[GetFullPath(cwd, path.value)].content)
    ensures r.Success? ==> |r.value| >= 1
  {
    var valid :- ValidatePath(cwd, fs, path);
    match CheckIfPathExists(cwd, fs, path)
    case Failure(e) => Failure(e)
    case Success(stats) => if !stats.File? then Failure(NotAFile) else Success(Lines(stats.content))
  }

  /** The report line of one key: `${key}:${value}`. The key, then ':', then the
      decimal numeral of the count. */
  function FormatLine(key: string, count: nat): (r: string)
    ensures |r| > |key| && StartsWith(r, key) && r[|key|] == ObjectSeparator
    ensures AllDigits(r[|key| + 1..]) && ParseDecimal(r[|key| + 1..]) == Some(count)
  {
    var r := key + [ObjectSeparator] + NatToString(count);
    assert r[|key| + 1..] == NatToString(count);
    r
  }

  /** The sort key of a line: `line.split(':')[0]`. */
  function KeyOf(line: string): string {
    Split(line, ObjectSeparator)[FirstItem]
  }

  /** What a reader of the report takes from a line: `split(':')[0]` and, when there
      is one, `split(':')[1]`. */
  function ParseLine(line: string): (string, Option<string>) {
    var parts := Split(line, ObjectSeparator);
    (parts[0], if |parts| > 1 then Some(parts[1]) else None)
  }

  /** Splitting a report line on ':' recovers its key and its count, when the key holds
      no ':'. */
  lemma ParseFormatLine(key: string, count: nat)
    requires ':' !in key
    ensures ParseLine(FormatLine(key, count)) == (key, Some(NatToString(count)))
    ensures KeyOf(FormatLine(key, count)) == key
    ensures ParseDecimal(NatToString(count)) == Some(count)
  {
    var d := NatToString(count);
    assert forall i :: 0 <= i < |d| ==> d[i] != ':';
    assert Join([key, d], ":") == FormatLine(key, count);
    SplitJoin([key, d], ':');
  }

  /** In a report line the ':' after the key is the last one: the count has none. */
  lemma ColonEndsKey(key: string, count: nat)
    ensures var s := FormatLine(key, count); s[|key|] == ':' && forall j :: |key| < j < |s| ==> s[j] != ':'
  {
    var s := FormatLine(key, count);
    var d := NatToString(count);
    forall j | |key| < j < |s|
      ensures s[j] != ':'
    {
      assert s[j] == d[j - |key| - 1];
      assert IsDigit(d[j - |key| - 1]);
    }
  }

  /** Different keys or counts give different lines: the count is the digits after the
      last ':'. */
  lemma FormatLineInjective(k1: string, v1: nat, k2: string, v2: nat)
    requires FormatLine(k1, v1) == FormatLine(k2, v2)
    ensures k1 == k2 && v1 == v2
  {
    var s := FormatLine(k1, v1);
    ColonEndsKey(k1, v1);
    ColonEndsKey(k2, v2);
    assert |k1| == |k2|;
    assert k1 == s[..|k1|] == k2;
    assert NatToString(v1) == s[|k1| + 1..] == NatToString(v2);
  }

  /** The lines of the keys in ks. */
  ghost function LinesOf(m: map<string, nat>, ks: set<string>): set<string> {
    set k | k in ks && k in m :: FormatLine(k, m[k])
  }

  /** One line per key. */
  lemma {:induction false} LinesOfCount(m: map<string, nat>, ks: set<string>)
    requires ks <= m.Keys
    ensures |LinesOf(m, ks)| == |ks|
    decreases ks
  {
    if ks != {} {
      var k :| k in ks;
      var rest := ks - {k};
      LinesOfCount(m, rest);
      LinesOfAdd(m, rest, k);
      assert rest + {k} == ks;
      assert |LinesOf(m, rest) + {FormatLine(k, m[k])}| == |LinesOf(m, rest)| + 1;
    }
  }

  /** Adding a key adds its line, which is not among the lines of the other keys. */
  lemma LinesOfAdd(m: map<string, nat>, ks: set<string>, k: string)
    requires ks <= m.Keys && k in m && k !in ks
    ensures LinesOf(m, ks + {k}) == LinesOf(m, ks) + {FormatLine(k, m[k])}
    ensures FormatLine(k, m[k]) !in LinesOf(m, ks)
  {
    if FormatLine(k, m[k]) in LinesOf(m, ks) {
      var j :| j in ks && FormatLine(j, m[j]) == FormatLine(k, m[k]);
      FormatLineInjective(j, m[j], k, m[k]);
    }
  }

  /** The lines a report must hold: one `key:value` line for each key of m. */
  ghost function ReportLines(m: map<string, nat>): multiset<string> {
    multiset(LinesOf(m, m.Keys))
  }

  /** Ascending by key, compared as strings. */
  ghost predicate SortedByKey(ls: seq<string>) {
    forall i, j :: 0 <= i < j < |ls| ==> AtMost(KeyOf(ls[i]), KeyOf(ls[j]))
  }

  /** ls is a report of m: its lines, each once, sorted by key. */
  ghost predicate IsReport(m: map<string, nat>, ls: seq<string>) {
    SortedByKey(ls) && multiset(ls) == ReportLines(m)
  }

  /** What writing the lines one by one produces: every line followed by a new line. */
  function Terminated(ls: seq<string>): (r: string)
    ensures ls == [] ==> r == ""
    ensures ls != [] ==> r == Join(ls, "\n") + "\n"
    decreases |ls|
  {
    if ls == [] then ""
    else
      var init, last := ls[..|ls| - 1], ls[|ls| - 1];
      assert init != [] ==> Join(ls, "\n") == Join(init, "\n") + "\n" + last by {
        if init != [] {
          JoinLast(init, last);
          assert init + [last] == ls;
        }
      }
      Terminated(init) + last + "\n"
  }

  /** A report holds exactly one line per key and nothing else. */
  lemma ReportOneLinePerKey(m: map<string, nat>, ls: seq<string>)
    requires IsReport(m, ls)
    ensures |ls| == |m|
    ensures forall k :: k in m ==> multiset(ls)[FormatLine(k, m[k])] == 1
    ensures forall i :: 0 <= i < |ls| ==> exists k :: k in m && ls[i] == FormatLine(k, m[k])
  {
    LinesOfCount(m, m.Keys);
    assert |multiset(ls)| == |ls|;
    forall i | 0 <= i < |ls|
      ensures exists k :: k in m && ls[i] == FormatLine(k, m[k])
    {
      assert ls[i] in multiset(ls);
      assert ls[i] in LinesOf(m, m.Keys);
    }
  }

  /** The report of a map is unique when no key holds ':', so the order in which the
      keys were visited does not matter. */
  lemma ReportUnique(m: map<string, nat>, a: seq<string>, b: seq<string>)
    requires forall k :: k in m ==> ':' !in k
    requires IsReport(m, a) && IsReport(m, b)
    ensures a == b
  {
    forall x, y | x in multiset(a) && y in multiset(a) && KeyOf(x) == KeyOf(y)
      ensures x == y
    {
      assert x in LinesOf(m, m.Keys) && y in LinesOf(m, m.Keys);
      var kx :| kx in m && x == FormatLine(kx, m[kx]);
      var ky :| ky in m && y == FormatLine(ky, m[ky]);
      ParseFormatLine(kx, m[kx]);
      ParseFormatLine(ky, m[ky]);
    }
    SortedUnique(a, b);
  }

  /** No two different lines among ls share a key. */
  ghost predicate KeysUnique(ls: multiset<string>) {
    forall x, y :: x in ls && y in ls && KeyOf(x) == KeyOf(y) ==> x == y
  }

  /** Two sequences sorted by key, with the same elements and no key shared by two
      different elements, are equal. */
  lemma {:induction false} SortedUnique(a: seq<string>, b: seq<string>)
    requires multiset(a) == multiset(b) && KeysUnique(multiset(a))
    requires SortedByKey(a) && SortedByKey(b)
    ensures a == b
    decreases |a|
  {
    assert |a| == |multiset(a)| == |multiset(b)| == |b|;
    if a != [] {
      SortedSameFirst(a, b);
      SortedUniqueTails(a, b);
      SortedTail(a);
      SortedTail(b);
      SortedUnique(a[1..], b[1..]);
      assert a == [a[0]] + a[1..] && b == [b[0]] + b[1..];
    }
  }

  /** Sorted with the same elements and unique keys: the first lines agree. */
  lemma SortedSameFirst(a: seq<string>, b: seq<string>)
    requires a != [] && b != [] && multiset(a) == multiset(b) && KeysUnique(multiset(a))
    requires SortedByKey(a) && SortedByKey(b)
    ensures a[0] == b[0]
  {
    var x, y := a[0], b[0];
    assert x in multiset(a) && y in multiset(b);
    assert x in b && y in a;
    SortedFirstIsLeast(a, y);
    SortedFirstIsLeast(b, x);
    AtMostAntisymmetric(KeyOf(x), KeyOf(y));
  }

  /** Removing the same first line leaves tails with the same elements and unique keys. */
  lemma SortedUniqueTails(a: seq<string>, b: seq<string>)
    requires a != [] && b != [] && a[0] == b[0]
    requires multiset(a) == multiset(b) && KeysUnique(multiset(a))
    ensures multiset(a[1..]) == multiset(b[1..]) && KeysUnique(multiset(a[1..]))
  {
    assert a == [a[0]] + a[1..] && b == [b[0]] + b[1..];
    assert multiset(a) == multiset{a[0]} + multiset(a[1..]);
    assert multiset(b) == multiset{a[0]} + multiset(b[1..]);
    assert multiset(a[1..]) <= multiset(a);
  }

  /** The first line of a sorted sequence has the least key. */
  lemma SortedFirstIsLeast(a: seq<string>, y: string)
    requires SortedByKey(a) && y in a
    ensures AtMost(KeyOf(a[0]), KeyOf(y))
  {
    var i :| 0 <= i < |a| && a[i] == y;
    if i == 0 {
      BelowIrreflexive(KeyOf(y));
    }
  }

  lemma SortedTail(a: seq<string>)
    requires SortedByKey(a) && a != []
    ensures SortedByKey(a[1..])
  {
    forall i, j | 0 <= i < j < |a| - 1
      ensures AtMost(KeyOf(a[1..][i]), KeyOf(a[1..][j]))
    {
      assert a[1..][i] == a[i + 1] && a[1..][j] == a[j + 1];
    }
  }

  lemma {:induction false} JoinLast(ls: seq<string>, x: string)
    requires ls != []
    ensures Join(ls + [x], "\n") == Join(ls, "\n") + "\n" + x
    decreases |ls|
  {
    assert (ls + [x])[0] == ls[0];
    if |ls| > 1 {
      assert (ls + [x])[1..] == ls[1..] + [x];
      JoinLast(ls[1..], x);
    } else {
      assert (ls + [x])[1..] == [x];
    }
  }

  /** A key the report can carry and read back: no ':' and no white space. */
  predicate PlainKey(k: string) {
    forall i :: 0 <= i < |k| ==> k[i] != ':' && !IsWhitespace(k[i])
  }

  /** The line of a plain key: no new line, no white space at either end, and split on
      ':' it gives the key and the numeral of the count. */
  lemma PlainLineShape(k: string, count: nat)
    requires PlainKey(k)
    ensures var l := FormatLine(k, count);
      && '\n' !in l
      && l != [] && !IsWhitespace(l[0]) && !IsWhitespace(l[|l| - 1])
      && ParseLine(l) == (k, Some(NatToString(count)))
      && ParseDecimal(NatToString(count)) == Some(count)
  {
    ParseFormatLine(k, count);
    PlainLineEnds(k, NatToString(count));
    PlainLineNoNewLine(k, NatToString(count));
  }

  lemma PlainLineEnds(k: string, d: string)
    requires PlainKey(k) && AllDigits(d)
    ensures var l := k + [':'] + d; !IsWhitespace(l[0]) && !IsWhitespace(l[|l| - 1])
  {
    var l := k + [':'] + d;
    assert l[|l| - 1] == d[|d| - 1];
    assert IsDigit(d[|d| - 1]);
    if k != [] {
      assert l[0] == k[0];
    }
  }

  lemma PlainLineNoNewLine(k: string, d: string)
    requires PlainKey(k) && AllDigits(d)
    ensures '\n' !in k + [':'] + d
  {
    var l := k + [':'] + d;
    forall j | 0 <= j < |l|
      ensures l[j] != '\n'
    {
      if j < |k| {
        assert l[j] == k[j];
        assert !IsWhitespace(k[j]);
      } else if j > |k| {
        assert l[j] == d[j - |k| - 1];
        assert IsDigit(d[j - |k| - 1]);
      }
    }
  }

  /** Each line of a report of a map with plain keys has the shape of a plain line, for
      a key of the map and that key's count. */
  lemma ReportLineShape(m: map<string, nat>, ls: seq<string>, i: int)
    requires IsReport(m, ls)
    requires forall k :: k in m ==> PlainKey(k)
    requires 0 <= i < |ls|
    ensures '\n' !in ls[i]
    ensures ls[i] != [] && !IsWhitespace(ls[i][0]) && !IsWhitespace(ls[i][|ls[i]| - 1])
    ensures var (k, v) := ParseLine(ls[i]); k in m && v.Some? && ParseDecimal(v.value) == Some(m[k])
  {
    ReportOneLinePerKey(m, ls);
    var k :| k in m && ls[i] == FormatLine(k, m[k]);
    PlainLineShape(k, m[k]);
  }

  /** Trimming the written lines removes exactly the final new line, when no line is
      empty or has white space at either end. */
  lemma TrimTerminated(ls: seq<string>)
    requires ls != []
    requires forall i :: 0 <= i < |ls| ==> ls[i] != [] && !IsWhitespace(ls[i][0]) && !IsWhitespace(ls[i][|ls[i]| - 1])
    ensures Trim(Terminated(ls)) == Join(ls, "\n")
  {
    JoinEnds(ls);
    TrimDropsNewLine(Join(ls, "\n"));
  }

  /** Trimming a text with no white space at its ends, followed by a new line, removes
      that new line. */
  lemma TrimDropsNewLine(s: string)
    requires s != [] && !IsWhitespace(s[0]) && !IsWhitespace(s[|s| - 1])
    ensures Trim(s + "\n") == s
  {
    var t := s + "\n";
    assert TrimStart(t) == t;
    assert t[..|t| - 1] == s;
    assert TrimEnd(t) == TrimEnd(s) == s;
  }

  /** Reading written lines back gives them again, when none is empty, holds a new line
      or has white space at either end. */
  lemma LinesOfTerminated(ls: seq<string>)
    requires ls != []
    requires forall i :: 0 <= i < |ls| ==> '\n' !in ls[i]
    requires forall i :: 0 <= i < |ls| ==> ls[i] != [] && !IsWhitespace(ls[i][0]) && !IsWhitespace(ls[i][|ls[i]| - 1])
    ensures Lines(Terminated(ls)) == ls
  {
    TrimTerminated(ls);
    JoinEnds(ls);
    LinesOfJoin(ls);
  }

  /** Round trip: reading the written report of a non-empty map back as lines
      (trim, split on new lines) gives its lines, and splitting each line on ':' gives a
      key of the map and the numeral of that key's count; every key is read back. */
  lemma ReportReadBack(m: map<string, nat>, ls: seq<string>)
    requires IsReport(m, ls)
    requires m != map[]
    requires forall k :: k in m ==> PlainKey(k)
    ensures Lines(Terminated(ls)) == ls
    ensures forall i :: 0 <= i < |ls| ==>
      var (k, v) := ParseLine(ls[i]); k in m && v.Some? && ParseDecimal(v.value) == Some(m[k])
    ensures forall k :: k in m ==> exists i :: 0 <= i < |ls| && ParseLine(ls[i]).0 == k
  {
    assert ls != [] by {
      ReportOneLinePerKey(m, ls);
    }
    forall i | 0 <= i < |ls|
      ensures '\n' !in ls[i]
      ensures ls[i] != [] && !IsWhitespace(ls[i][0]) && !IsWhitespace(ls[i][|ls[i]| - 1])
      ensures var (k, v) := ParseLine(ls[i]); k in m && v.Some? && ParseDecimal(v.value) == Some(m[k])
    {
      ReportLineShape(m, ls, i);
    }
    LinesOfTerminated(ls);
    forall k | k in m
      ensures exists i :: 0 <= i < |ls| && ParseLine(ls[i]).0 == k
    {
      assert PlainKey(k);
      KeyReadBack(m, ls, k);
    }
  }

  /** Every key of the map has a line in its report that reads back as that key. */
  lemma KeyReadBack(m: map<string, nat>, ls: seq<string>, k: string)
    requires IsReport(m, ls)
    requires k in m && ':' !in k
    ensures exists i :: 0 <= i < |ls| && ParseLine(ls[i]).0 == k
  {
    ReportOneLinePerKey(m, ls);
    assert FormatLine(k, m[k]) in multiset(ls);
    var i :| 0 <= i < |ls| && ls[i] == FormatLine(k, m[k]);
    ParseFormatLine(k, m[k]);
  }

  /** The joined text starts with the first line's first character and ends with the last
      line's last character. */
  lemma {:induction false} JoinEnds(ls: seq<string>)
    requires ls != [] && forall i :: 0 <= i < |ls| ==> ls[i] != []
    ensures var s := Join(ls, "\n"); s != [] && s[0] == ls[0][0] && s[|s| - 1] == ls[|ls| - 1][|ls[|ls| - 1]| - 1]
    decreases |ls|
  {
    if |ls| > 1 {
      var tail := ls[1..];
      assert forall i :: 0 <= i < |tail| ==> tail[i] == ls[i + 1];
      JoinEnds(tail);
      var s, t := Join(ls, "\n"), Join(tail, "\n");
      assert s == ls[0] + "\n" + t;
      assert s[0] == ls[0][0];
      assert s[|s| - 1] == t[|t| - 1];
      assert tail[|tail| - 1] == ls[|ls| - 1];
    }
  }

  /** The first n lines of ls are in ascending order of key. */
  ghost predicate SortedPrefix(ls: seq<string>, n: int) {
    forall p, q :: 0 <= p < q < n && q < |ls| ==> AtMost(KeyOf(ls[p]), KeyOf(ls[q]))
  }

  /** Array.prototype.sort on the lines, with the comparison the code means: ascending by
      key as strings (an insertion sort, in place). */
  method SortByKey(a: array<string>)
    modifies a
    ensures SortedByKey(a[..])
    ensures multiset(a[..]) == multiset(old(a[..]))
  {
    var i := 0;
    while i < a.Length
      invariant 0 <= i <= a.Length
      invariant SortedPrefix(a[..], i)
      invariant multiset(a[..]) == multiset(old(a[..]))
    {
      InsertLine(a, i);
      i := i + 1;
    }
  }

  /** One step of the insertion sort: moves a[i] down past every line with a greater key,
      so that the first i + 1 lines are sorted. */
  method InsertLine(a: array<string>, i: nat)
    requires i < a.Length && SortedPrefix(a[..], i)
    modifies a
    ensures SortedPrefix(a[..], i + 1)
    ensures multiset(a[..]) == multiset(old(a[..]))
  {
    var j := i;
    InsertingStart(a[..], i);
    while j > 0 && Below(KeyOf(a[j]), KeyOf(a[j - 1]))
      invariant 0 <= j <= i
      invariant Inserting(a[..], i, j)
      invariant multiset(a[..]) == multiset(old(a[..]))
    {
      ghost var before := a[..];
      a[j - 1], a[j] := a[j], a[j - 1];
      InsertingSwap(before, a[..], i, j);
      j := j - 1;
    }
    InsertedSorted(a[..], i, j);
  }

  /** While the line that started at i moves down to j: the other lines up to i are in
      order, and the moving line is below every line after it. */
  ghost predicate Inserting(s: seq<string>, i: nat, j: nat) {
    && j <= i < |s|
    && (forall p, q :: 0 <= p < q <= i && p != j && q != j ==> AtMost(KeyOf(s[p]), KeyOf(s[q])))
    && (forall q :: j < q <= i ==> Below(KeyOf(s[j]), KeyOf(s[q])))
  }

  lemma InsertingStart(s: seq<string>, i: nat)
    requires i < |s| && SortedPrefix(s, i)
    ensures Inserting(s, i, i)
  {
  }

  /** Swapping the moving line with a greater one before it keeps the insertion invariant. */
  lemma InsertingSwap(s: seq<string>, t: seq<string>, i: nat, j: nat)
    requires 0 < j && Inserting(s, i, j) && Below(KeyOf(s[j]), KeyOf(s[j - 1]))
    requires t == s[j - 1 := s[j]][j := s[j - 1]]
    ensures Inserting(t, i, j - 1)
  {
  }

  /** After the insertion loop: the line at j is below every later one and not below the
      one before it, and the others keep their order, so the first i + 1 lines are sorted. */
  lemma InsertedSorted(s: seq<string>, i: nat, j: nat)
    requires Inserting(s, i, j)
    requires j > 0 ==> !Below(KeyOf(s[j]), KeyOf(s[j - 1]))
    ensures SortedPrefix(s, i + 1)
  {
    forall p, q | 0 <= p < q <= i
      ensures AtMost(KeyOf(s[p]), KeyOf(s[q]))
    {
      if q == j && p < j - 1 {
        AtMostTransitive(KeyOf(s[p]), KeyOf(s[j - 1]), KeyOf(s[j]));
      } else if p == j {
        BelowAsymmetric(KeyOf(s[j]), KeyOf(s[q]));
      }
    }
  }

  /** The forOwn loop of writeOnFile: one `key:value` line per own key, the keys taken
      in an order the model leaves open. */
  method FormatEntries(m: map<string, nat>) returns (lines: seq<string>)
    ensures multiset(lines) == ReportLines(m)
  {
    lines := [];
    var rest := m.Keys;
    ghost var done: set<string> := {};
    while rest != {}
      invariant rest <= m.Keys && done == m.Keys - rest
      invariant multiset(lines) == multiset(LinesOf(m, done))
      decreases |rest|
    {
      var key :| key in rest;
      FormatStep(m, done, key, lines);
      lines := lines + [FormatLine(key, m[key])];
      rest := rest - {key};
      done := done + {key};
    }
    assert done == m.Keys;
  }

  /** One turn of the forOwn loop: the line of a new key extends the lines so far. */
  lemma FormatStep(m: map<string, nat>, done: set<string>, key: string, lines: seq<string>)
    requires done <= m.Keys && key in m && key !in done
    requires multiset(lines) == multiset(LinesOf(m, done))
    ensures multiset(lines + [FormatLine(key, m[key])]) == multiset(LinesOf(m, done + {key}))
  {
    LinesOfAdd(m, done, key);
  }

  /** The writing loop of writeOnFile: each line, then a new line, in order. */
  method WriteLines(a: array<string>) returns (content: string)
    ensures content == Terminated(a[..])
  {
    content := "";
    var i := 0;
    while i < a.Length
      invariant 0 <= i <= a.Length
      invariant content == Terminated(a[..i])
    {
      assert a[..i + 1][..i] == a[..i];
      content := content + a[i] + "\n";
      i := i + 1;
    }
    assert a[..a.Length] == a[..];
  }

  /** writeOnFile: rejects anything but an object; otherwise one `key:value` line per own
      key, sorted by key, each written followed by a new line. The result is the text
      written to the output file. */
  method WriteOnFile(data: Option<map<string, nat>>) returns (r: Result<string>)
    ensures data.None? <==> r.Failure?
    ensures r.Failure? ==> r.error == NotAnObject
    ensures r.Success? ==> exists ls :: IsReport(data.value, ls) && r.value == Terminated(ls)
  {
    if data.None? {
      return Failure(NotAnObject);
    }
    var lines := FormatEntries(data.value);
    var a := new string[|lines|](i requires 0 <= i < |lines| => lines[i]);
    assert a[..] == lines;
    SortByKey(a);
    var content := WriteLines(a);
    assert IsReport(data.value, a[..]);
    return Success(content);
  }
}
