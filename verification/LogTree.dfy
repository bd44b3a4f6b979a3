/**
 Filtering and summarising the output of a log search (`log-agent/backend/log_reader.go`).

 The decoded JSON is modelled by the parts that the code reads: an entry of the wrong JSON type is
 `Other`, `NotAFileLog` or `NotAResult`, and a missing object is `None`. A compiled regular expression
 is a predicate on lines.
 */
module LogTree {
  import opened Basics
  import Text

  datatype Value = Text(text: string) | Other

  /** `matches` is the `totalMatches` of stdout or the `lineCount` of a file log. */
  datatype Stream = Stream(lines: seq<Value>, error: string, matches: int, truncated: bool)

  datatype FileLog = FileLog(stream: Stream) | NotAFileLog

  datatype Result = Result(tree: Tree) | NotAResult

  datatype Target = Target(service: string, env: string, pod: string, container: string)

  datatype Tree = Tree(target: Option<Target>, logFiles: seq<Value>, stdout: Option<Stream>,
                       fileLogs: seq<FileLog>, results: seq<Result>, raw: Option<Tree>)

  datatype Summary = Summary(target: string, logFiles: seq<string>, stdoutLines: int, fileLogLines: int,
                             jobCount: int, errors: seq<string>)

  type Regex = string -> bool

  // ----- Filtering -----

  predicate MatchesAll(line: Value, regexes: seq<Regex>) {
    line.Text? && forall i :: 0 <= i < |regexes| ==> regexes[i](line.text)
  }

  /** The lines that are strings and match every expression. */
  function Kept(lines: seq<Value>, regexes: seq<Regex>): seq<Value> {
    if lines == [] then []
    else
      Kept(lines[..|lines| - 1], regexes) +
      if MatchesAll(lines[|lines| - 1], regexes) then [lines[|lines| - 1]] else []
  }

  lemma KeptStep(lines: seq<Value>, regexes: seq<Regex>, i: nat)
    requires i < |lines|
    ensures Kept(lines[..i + 1], regexes) ==
            if MatchesAll(lines[i], regexes) then Kept(lines[..i], regexes) + [lines[i]] else Kept(lines[..i], regexes)
  {
    assert lines[..i + 1][..i] == lines[..i];
  }

  method FilterLinesByRegexes(lines: seq<Value>, regexes: seq<Regex>) returns (out: seq<Value>)
    ensures out == Kept(lines, regexes)
  {
    out := [];
    for i := 0 to |lines|
      invariant out == Kept(lines[..i], regexes)
    {
      KeptStep(lines, regexes, i);
      if lines[i].Other? {
        continue;
      }
      var matchedAll := true;
      var r := 0;
      while r < |regexes|
        invariant r <= |regexes| && matchedAll
        invariant forall k :: 0 <= k < r ==> regexes[k](lines[i].text)
      {
        if !regexes[r](lines[i].text) {
          matchedAll := false;
          break;
        }
        r := r + 1;
      }
      if matchedAll {
        out := out + [lines[i]];
      }
    }
    assert lines[..|lines|] == lines;
  }

  function FilterStream(s: Stream, regexes: seq<Regex>): Stream {
    var kept := Kept(s.lines, regexes);
    Stream(kept, s.error, |kept|, false)
  }

  function FilterFileLog(f: FileLog, regexes: seq<Regex>): FileLog {
    if f.FileLog? then FileLog(FilterStream(f.stream, regexes)) else f
  }

  function FilterFileLogs(files: seq<FileLog>, regexes: seq<Regex>): seq<FileLog> {
    if files == [] then []
    else FilterFileLogs(files[..|files| - 1], regexes) + [FilterFileLog(files[|files| - 1], regexes)]
  }

  function FilterResults(t: Tree, n: nat, regexes: seq<Regex>): (r: seq<Result>)
    requires n <= |t.results|
    ensures |r| == n
    decreases t, n
  {
    if n == 0 then []
    else
      FilterResults(t, n - 1, regexes) +
      [if t.results[n - 1].Result? then Result(FilterTree(t.results[n - 1].tree, regexes)) else t.results[n - 1]]
  }

  function FilterTree(t: Tree, regexes: seq<Regex>): Tree
    decreases t, |t.results| + 1
  {
    if regexes == [] then t
    else
      Tree(t.target, t.logFiles,
           if t.stdout.Some? then Some(FilterStream(t.stdout.value, regexes)) else None,
           FilterFileLogs(t.fileLogs, regexes),
           FilterResults(t, |t.results|, regexes),
           if t.raw.Some? then Some(FilterTree(t.raw.value, regexes)) else None)
  }

  method FilterLogOutput(t: Tree, regexes: seq<Regex>) returns (out: Tree)
    ensures out == FilterTree(t, regexes)
    decreases t
  {
    if |regexes| == 0 {
      return t;
    }
    var stdout := t.stdout;
    if stdout.Some? {
      var lines := FilterLinesByRegexes(stdout.value.lines, regexes);
      stdout := Some(Stream(lines, stdout.value.error, |lines|, false));
    }
    var fileLogs := FilterAllFileLogs(t.fileLogs, regexes);
    var results := [];
    for i := 0 to |t.results|
      invariant results == FilterResults(t, i, regexes)
    {
      if t.results[i].Result? {
        var nested := FilterLogOutput(t.results[i].tree, regexes);
        results := results + [Result(nested)];
      } else {
        results := results + [t.results[i]];
      }
    }
    var raw := t.raw;
    if raw.Some? {
      var nested := FilterLogOutput(raw.value, regexes);
      raw := Some(nested);
    }
    out := Tree(t.target, t.logFiles, stdout, fileLogs, results, raw);
  }

  method FilterAllFileLogs(files: seq<FileLog>, regexes: seq<Regex>) returns (out: seq<FileLog>)
    ensures out == FilterFileLogs(files, regexes)
  {
    out := [];
    for i := 0 to |files|
      invariant out == FilterFileLogs(files[..i], regexes)
    {
      assert files[..i + 1][..i] == files[..i];
      if files[i].FileLog? {
        var lines := FilterLinesByRegexes(files[i].stream.lines, regexes);
        out := out + [FileLog(Stream(lines, files[i].stream.error, |lines|, false))];
      } else {
        out := out + [files[i]];
      }
    }
    assert files[..|files|] == files;
  }

  /** `f` is `s` with only the lines that match, counted anew and never marked as cut off. */
  ghost predicate IsFiltered(s: Stream, f: Stream, regexes: seq<Regex>) {
    f.lines == Kept(s.lines, regexes) && f.error == s.error && f.matches == |f.lines| && !f.truncated
  }

  /** Filtering changes the streams at every place of the tree, and nothing else; without expressions, nothing. */
  lemma {:induction false} FilterChangesOnlyStreams(t: Tree, regexes: seq<Regex>)
    ensures regexes == [] ==> FilterTree(t, regexes) == t
    ensures regexes != [] ==>
              var f := FilterTree(t, regexes);
              && f.target == t.target && f.logFiles == t.logFiles
              && f.stdout.Some? == t.stdout.Some? && f.raw.Some? == t.raw.Some?
              && |f.fileLogs| == |t.fileLogs| && |f.results| == |t.results|
              && (t.stdout.Some? ==> IsFiltered(t.stdout.value, f.stdout.value, regexes))
              && (t.raw.Some? ==> f.raw.value == FilterTree(t.raw.value, regexes))
              && (forall i :: 0 <= i < |t.fileLogs| ==>
                    if t.fileLogs[i].FileLog?
                    then f.fileLogs[i].FileLog? && IsFiltered(t.fileLogs[i].stream, f.fileLogs[i].stream, regexes)
                    else f.fileLogs[i].NotAFileLog?)
              && (forall i :: 0 <= i < |t.results| ==>
                    if t.results[i].Result?
                    then f.results[i].Result? && f.results[i].tree == FilterTree(t.results[i].tree, regexes)
                    else f.results[i].NotAResult?)
  {
    hide Kept;
    FileLogsFiltered(t.fileLogs, regexes);
    forall i | 0 <= i < |t.results|
      ensures FilterResults(t, |t.results|, regexes)[i] ==
              if t.results[i].Result? then Result(FilterTree(t.results[i].tree, regexes)) else t.results[i]
    {
      FilteredResult(t, |t.results|, i, regexes);
    }
  }

  lemma {:induction false} FileLogsFiltered(files: seq<FileLog>, regexes: seq<Regex>)
    ensures var f := FilterFileLogs(files, regexes);
            && |f| == |files|
            && forall i :: 0 <= i < |files| ==>
                 if files[i].FileLog? then f[i].FileLog? && IsFiltered(files[i].stream, f[i].stream, regexes)
                 else f[i].NotAFileLog?
  {
    hide Kept;
    if files != [] { FileLogsFiltered(files[..|files| - 1], regexes); }
  }

  /** The lines that are kept are the strings that match every expression, in their order. */
  lemma KeptAre(lines: seq<Value>, regexes: seq<Regex>, line: Value)
    ensures Kept([], regexes) == []
    ensures Kept(lines + [line], regexes) ==
              Kept(lines, regexes) +
              if line.Text? && forall r :: r in regexes ==> r(line.text) then [line] else []
  {
    assert (lines + [line])[..|lines|] == lines;
  }

  // ----- All lines of a tree, as a reference for both -----

  datatype Source = Stdout | Files

  function FileLines(files: seq<FileLog>): seq<Value> {
    if files == [] then []
    else
      FileLines(files[..|files| - 1]) +
      if files[|files| - 1].FileLog? then files[|files| - 1].stream.lines else []
  }

  function OwnLines(t: Tree, source: Source): seq<Value> {
    match source
    case Stdout => if t.stdout.Some? then t.stdout.value.lines else []
    case Files => FileLines(t.fileLogs)
  }

  function ResultLines(t: Tree, n: nat, source: Source): seq<Value>
    requires n <= |t.results|
    decreases t, n
  {
    if n == 0 then []
    else
      ResultLines(t, n - 1, source) +
      if t.results[n - 1].Result? then Lines(t.results[n - 1].tree, source) else []
  }

  /** Every line of one kind in the tree, nested results and nested raw output included. */
  function Lines(t: Tree, source: Source): seq<Value>
    decreases t, |t.results| + 1
  {
    OwnLines(t, source) + ResultLines(t, |t.results|, source) +
    if t.raw.Some? then Lines(t.raw.value, source) else []
  }

  lemma {:induction false} KeptConcat(a: seq<Value>, b: seq<Value>, regexes: seq<Regex>)
    ensures Kept(a + b, regexes) == Kept(a, regexes) + Kept(b, regexes)
  {
    if b == [] {
      assert a + b == a;
    } else {
      var last := |b| - 1;
      assert (a + b)[..|a + b| - 1] == a + b[..last];
      KeptConcat(a, b[..last], regexes);
    }
  }

  lemma {:induction false} KeptTwice(lines: seq<Value>, regexes: seq<Regex>)
    ensures Kept(Kept(lines, regexes), regexes) == Kept(lines, regexes)
  {
    if lines != [] {
      var front, last := lines[..|lines| - 1], lines[|lines| - 1];
      KeptTwice(front, regexes);
      assert Kept(lines, regexes) ==
             if MatchesAll(last, regexes) then Kept(front, regexes) + [last] else Kept(front, regexes);
      if MatchesAll(last, regexes) {
        KeptConcat(Kept(front, regexes), [last], regexes);
        assert Kept([last], regexes) == [last] by { assert [last][..0] == []; }
      }
    }
  }

  lemma {:induction false} FileLinesFiltered(files: seq<FileLog>, regexes: seq<Regex>)
    ensures FileLines(FilterFileLogs(files, regexes)) == Kept(FileLines(files), regexes)
  {
    if files != [] {
      var front, last := files[..|files| - 1], files[|files| - 1];
      FileLinesFiltered(front, regexes);
      var filtered := FilterFileLogs(files, regexes);
      assert filtered[..|filtered| - 1] == FilterFileLogs(front, regexes);
      KeptConcat(FileLines(front), if last.FileLog? then last.stream.lines else [], regexes);
    }
  }

  lemma OwnLinesFiltered(t: Tree, regexes: seq<Regex>, source: Source)
    requires regexes != []
    ensures OwnLines(FilterTree(t, regexes), source) == Kept(OwnLines(t, source), regexes)
  {
    FileLinesFiltered(t.fileLogs, regexes);
  }

  lemma {:induction false} FilteredResult(t: Tree, n: nat, i: nat, regexes: seq<Regex>)
    requires i < n <= |t.results|
    ensures FilterResults(t, n, regexes)[i] ==
            if t.results[i].Result? then Result(FilterTree(t.results[i].tree, regexes)) else t.results[i]
  {
    if i < n - 1 { FilteredResult(t, n - 1, i, regexes); }
  }

  lemma {:induction false} ResultLinesFiltered(t: Tree, n: nat, regexes: seq<Regex>, source: Source)
    requires regexes != [] && n <= |t.results|
    ensures |FilterTree(t, regexes).results| == |t.results|
    ensures ResultLines(FilterTree(t, regexes), n, source) == Kept(ResultLines(t, n, source), regexes)
    decreases t, n
  {
    if n > 0 {
      ResultLinesFiltered(t, n - 1, regexes, source);
      FilteredResult(t, |t.results|, n - 1, regexes);
      var r := t.results[n - 1];
      KeptConcat(ResultLines(t, n - 1, source), if r.Result? then Lines(r.tree, source) else [], regexes);
      if r.Result? { LinesFiltered(r.tree, regexes, source); }
    }
  }

  /** Filtering keeps exactly the lines that match, everywhere in the tree and in their order. */
  lemma {:induction false} LinesFiltered(t: Tree, regexes: seq<Regex>, source: Source)
    requires regexes != []
    ensures Lines(FilterTree(t, regexes), source) == Kept(Lines(t, source), regexes)
    decreases t, |t.results| + 1
  {
    hide Kept, OwnLines;
    var own, nested := OwnLines(t, source), ResultLines(t, |t.results|, source);
    var raw := if t.raw.Some? then Lines(t.raw.value, source) else [];
    OwnLinesFiltered(t, regexes, source);
    ResultLinesFiltered(t, |t.results|, regexes, source);
    if t.raw.Some? { LinesFiltered(t.raw.value, regexes, source); }
    KeptNothing(regexes);
    KeptConcat(own, nested, regexes);
    KeptConcat(own + nested, raw, regexes);
  }

  lemma KeptNothing(regexes: seq<Regex>)
    ensures Kept([], regexes) == []
  {
  }

  lemma {:induction false} FileLogsTwice(files: seq<FileLog>, regexes: seq<Regex>)
    ensures FilterFileLogs(FilterFileLogs(files, regexes), regexes) == FilterFileLogs(files, regexes)
  {
    if files != [] {
      var front, last := files[..|files| - 1], files[|files| - 1];
      FileLogsTwice(front, regexes);
      var filtered := FilterFileLogs(files, regexes);
      assert filtered[..|filtered| - 1] == FilterFileLogs(front, regexes);
      if last.FileLog? { KeptTwice(last.stream.lines, regexes); }
    }
  }

  lemma {:induction false} ResultsTwice(t: Tree, n: nat, regexes: seq<Regex>)
    requires regexes != [] && n <= |t.results|
    ensures FilterResults(FilterTree(t, regexes), n, regexes) == FilterResults(t, n, regexes)
    decreases t, n
  {
    if n > 0 {
      ResultsTwice(t, n - 1, regexes);
      FilteredResult(t, |t.results|, n - 1, regexes);
      if t.results[n - 1].Result? { FilteringIsIdempotent(t.results[n - 1].tree, regexes); }
    }
  }

  /** Filtering a second time changes nothing. */
  lemma {:induction false} FilteringIsIdempotent(t: Tree, regexes: seq<Regex>)
    ensures FilterTree(FilterTree(t, regexes), regexes) == FilterTree(t, regexes)
    decreases t, |t.results| + 1
  {
    hide Kept;
    if regexes != [] {
      if t.stdout.Some? { KeptTwice(t.stdout.value.lines, regexes); }
      FileLogsTwice(t.fileLogs, regexes);
      ResultsTwice(t, |t.results|, regexes);
      if t.raw.Some? { FilteringIsIdempotent(t.raw.value, regexes); }
    }
  }

  // ----- Summaries -----

  /** `appendUniqueStrings`: the non-blank values that are not there yet, in order. */
  function AppendUnique(dst: seq<string>, values: seq<string>): seq<string> {
    if values == [] then dst
    else
      var before, last := AppendUnique(dst, values[..|values| - 1]), values[|values| - 1];
      if Text.IsBlank(last) || last in before then before else before + [last]
  }

  method AppendUniqueStrings(dst: seq<string>, values: seq<string>) returns (out: seq<string>)
    ensures out == AppendUnique(dst, values)
  {
    var seen := AsSet(dst);
    out := dst;
    for i := 0 to |values|
      invariant out == AppendUnique(dst, values[..i])
      invariant forall s :: s in seen <==> s in out
    {
      assert values[..i + 1][..i] == values[..i];
      if !Text.IsBlank(values[i]) && values[i] !in seen {
        seen := seen + {values[i]};
        out := out + [values[i]];
      }
    }
    assert values[..|values|] == values;
  }

  /** `stringSlice`: the non-empty strings. */
  function Strings(values: seq<Value>): seq<string> {
    if values == [] then []
    else
      var last := values[|values| - 1];
      Strings(values[..|values| - 1]) + if last.Text? && last.text != "" then [last.text] else []
  }

  function JoinNonEmpty(parts: seq<string>): string {
    if parts == [] then ""
    else
      var front, last := JoinNonEmpty(parts[..|parts| - 1]), Text.Trim(parts[|parts| - 1]);
      if last == "" then front else if front == "" then last else front + " / " + last
  }

  function TargetName(target: Option<Target>): string {
    if target.None? then ""
    else JoinNonEmpty([target.value.service, target.value.env, target.value.pod, target.value.container])
  }

  function ErrorOf(s: Stream): seq<string> {
    if s.error == "" then [] else [s.error]
  }

  /** What the stdout part contributes. */
  function StdoutSummary(t: Tree): Summary {
    Summary(TargetName(t.target), Strings(t.logFiles),
            if t.stdout.Some? then |t.stdout.value.lines| else 0, 0, 0,
            if t.stdout.Some? then ErrorOf(t.stdout.value) else [])
  }

  function AddFileLog(s: Summary, f: FileLog): Summary {
    if f.NotAFileLog? then s
    else s.(fileLogLines := s.fileLogLines + |f.stream.lines|, errors := s.errors + ErrorOf(f.stream))
  }

  function AddFileLogs(s: Summary, files: seq<FileLog>): Summary {
    if files == [] then s else AddFileLog(AddFileLogs(s, files[..|files| - 1]), files[|files| - 1])
  }

  function AddCounts(s: Summary, nested: Summary): Summary {
    s.(stdoutLines := s.stdoutLines + nested.stdoutLines, fileLogLines := s.fileLogLines + nested.fileLogLines,
       logFiles := AppendUnique(s.logFiles, nested.logFiles), errors := s.errors + nested.errors)
  }

  /** A result names the target if there is no name yet, or if it holds all the lines so far. */
  function AddResult(s: Summary, nested: Summary): Summary {
    var sum := AddCounts(s, nested);
    if sum.target == "" ||
       ((nested.stdoutLines > 0 || nested.fileLogLines > 0) &&
        sum.stdoutLines + sum.fileLogLines == nested.stdoutLines + nested.fileLogLines)
    then sum.(target := nested.target) else sum
  }

  function AddRaw(s: Summary, nested: Summary): Summary {
    var sum := AddCounts(s, nested);
    if sum.target == "" then sum.(target := nested.target) else sum
  }

  function AddResults(t: Tree, n: nat): Summary
    requires n <= |t.results|
    decreases t, n
  {
    if n == 0 then AddFileLogs(StdoutSummary(t), t.fileLogs)
    else if t.results[n - 1].Result? then AddResult(AddResults(t, n - 1), Summarized(t.results[n - 1].tree))
    else AddResults(t, n - 1)
  }

  function Summarized(t: Tree): Summary
    decreases t, |t.results| + 1
  {
    var s := AddResults(t, |t.results|);
    if t.raw.Some? then AddRaw(s, Summarized(t.raw.value)) else s
  }

  method SummarizeLogOutput(t: Tree) returns (s: Summary)
    ensures s == Summarized(t)
    decreases t
  {
    s := StdoutSummary(t);
    for i := 0 to |t.fileLogs|
      invariant s == AddFileLogs(StdoutSummary(t), t.fileLogs[..i])
    {
      assert t.fileLogs[..i + 1][..i] == t.fileLogs[..i];
      s := AddFileLog(s, t.fileLogs[i]);
    }
    assert t.fileLogs[..|t.fileLogs|] == t.fileLogs;
    for i := 0 to |t.results|
      invariant s == AddResults(t, i)
    {
      if t.results[i].NotAResult? {
        continue;
      }
      var nested := SummarizeLogOutput(t.results[i].tree);
      s := AddResult(s, nested);
    }
    if t.raw.Some? {
      var nested := SummarizeLogOutput(t.raw.value);
      s := AddRaw(s, nested);
    }
  }

  lemma {:induction false} FileLogCounts(s: Summary, files: seq<FileLog>)
    ensures AddFileLogs(s, files).fileLogLines == s.fileLogLines + |FileLines(files)|
    ensures AddFileLogs(s, files).stdoutLines == s.stdoutLines && AddFileLogs(s, files).jobCount == s.jobCount
  {
    if files != [] { FileLogCounts(s, files[..|files| - 1]); }
  }

  lemma {:induction false} ResultCounts(t: Tree, n: nat)
    requires n <= |t.results|
    ensures AddResults(t, n).stdoutLines == |OwnLines(t, Stdout) + ResultLines(t, n, Stdout)|
    ensures AddResults(t, n).fileLogLines == |OwnLines(t, Files) + ResultLines(t, n, Files)|
    ensures AddResults(t, n).jobCount == 0
    decreases t, n
  {
    if n == 0 {
      FileLogCounts(StdoutSummary(t), t.fileLogs);
    } else {
      ResultCounts(t, n - 1);
      if t.results[n - 1].Result? { SummaryCountsLines(t.results[n - 1].tree); }
    }
  }

  /** The totals of a summary are the numbers of lines in the whole tree. */
  lemma {:induction false} SummaryCountsLines(t: Tree)
    ensures Summarized(t).stdoutLines == |Lines(t, Stdout)|
    ensures Summarized(t).fileLogLines == |Lines(t, Files)|
    ensures Summarized(t).jobCount == 0
    decreases t, |t.results| + 1
  {
    ResultCounts(t, |t.results|);
    if t.raw.Some? { SummaryCountsLines(t.raw.value); }
  }

  /** After filtering they are the numbers of lines of the unfiltered tree that match every expression. */
  lemma FilteredSummaryCountsMatches(t: Tree, regexes: seq<Regex>)
    requires regexes != []
    ensures Summarized(FilterTree(t, regexes)).stdoutLines == |Kept(Lines(t, Stdout), regexes)|
    ensures Summarized(FilterTree(t, regexes)).fileLogLines == |Kept(Lines(t, Files), regexes)|
  {
    SummaryCountsLines(FilterTree(t, regexes));
    LinesFiltered(t, regexes, Stdout);
    LinesFiltered(t, regexes, Files);
  }

  /** Values are taken one after the other: a blank one and one that is there already change nothing. */
  lemma {:induction false} AppendUniqueOneByOne(dst: seq<string>, a: seq<string>, b: seq<string>, v: string)
    ensures AppendUnique(dst, a + b) == AppendUnique(AppendUnique(dst, a), b)
    ensures AppendUnique(dst, [v]) == if Text.Trim(v) == "" || v in dst then dst else dst + [v]
    ensures AppendUnique(dst, []) == dst
  {
    assert [v][..0] == [];
    if b == [] {
      assert a + b == a;
    } else {
      AppendUniqueOneByOne(dst, a, b[..|b| - 1], v);
      assert (a + b)[..|a + b| - 1] == a + b[..|b| - 1];
    }
  }

  /** `p` holds of the tree, of a result or of the raw output, at any depth. */
  ghost predicate Somewhere(t: Tree, p: Tree -> bool) {
    || p(t)
    || (exists i :: 0 <= i < |t.results| && t.results[i].Result? && Somewhere(t.results[i].tree, p))
    || (t.raw.Some? && Somewhere(t.raw.value, p))
  }

  /** A stream of `t` itself reports the error `e`. */
  predicate ReportsError(t: Tree, e: string) {
    || (t.stdout.Some? && t.stdout.value.error == e)
    || exists i :: 0 <= i < |t.fileLogs| && t.fileLogs[i].FileLog? && t.fileLogs[i].stream.error == e
  }

  lemma {:induction false} FileLogErrors(s: Summary, files: seq<FileLog>, e: string)
    ensures e in AddFileLogs(s, files).errors <==>
              || e in s.errors
              || (e != "" && exists i :: 0 <= i < |files| && files[i].FileLog? && files[i].stream.error == e)
    ensures AddFileLogs(s, files).logFiles == s.logFiles && AddFileLogs(s, files).target == s.target
  {
    if files != [] {
      var last := |files| - 1;
      FileLogErrors(s, files[..last], e);
      assert forall i :: 0 <= i < last ==> files[..last][i] == files[i];
    }
  }

  lemma {:induction false} StringsAre(values: seq<Value>, f: string)
    ensures f in Strings(values) <==> f != "" && Text(f) in values
  {
    if values != [] {
      StringsAre(values[..|values| - 1], f);
      assert values == values[..|values| - 1] + [values[|values| - 1]];
    }
  }

  lemma {:induction false} ResultsName(t: Tree, n: nat, e: string)
    requires n <= |t.results|
    ensures e in AddResults(t, n).errors <==>
              e != "" && (ReportsError(t, e) ||
                          exists i :: 0 <= i < n && t.results[i].Result? &&
                                      Somewhere(t.results[i].tree, (u: Tree) => ReportsError(u, e)))
    ensures !Text.IsBlank(e) ==>
              (e in AddResults(t, n).logFiles <==>
                 Text(e) in t.logFiles ||
                 exists i :: 0 <= i < n && t.results[i].Result? &&
                             Somewhere(t.results[i].tree, (u: Tree) => Text(e) in u.logFiles))
    decreases t, n
  {
    hide Text.IsBlank;
    if n == 0 {
      FileLogErrors(StdoutSummary(t), t.fileLogs, e);
      StringsAre(t.logFiles, e);
      NotBlank(e);
    } else {
      ResultsName(t, n - 1, e);
      if t.results[n - 1].Result? {
        SummaryNames(t.results[n - 1].tree, e);
        UniqueMembers(AddResults(t, n - 1).logFiles, Summarized(t.results[n - 1].tree).logFiles, e);
      }
    }
  }

  lemma NotBlank(e: string)
    ensures !Text.IsBlank(e) ==> e != ""
  {
  }

  /** A summary names the errors that some stream reports, and the files that are listed, anywhere in the tree. */
  lemma {:induction false} SummaryNames(t: Tree, e: string)
    ensures e in Summarized(t).errors <==> e != "" && Somewhere(t, (u: Tree) => ReportsError(u, e))
    ensures !Text.IsBlank(e) ==> (e in Summarized(t).logFiles <==> Somewhere(t, (u: Tree) => Text(e) in u.logFiles))
    decreases t, |t.results| + 1
  {
    hide Text.IsBlank;
    ResultsName(t, |t.results|, e);
    if t.raw.Some? {
      SummaryNames(t.raw.value, e);
      UniqueMembers(AddResults(t, |t.results|).logFiles, Summarized(t.raw.value).logFiles, e);
    }
  }

  /** The parts of a name: trimmed, without the blank ones, with a slash between two. */
  lemma {:induction false} PartsOfName(a: seq<string>, b: seq<string>, v: string)
    ensures var x, y := JoinNonEmpty(a), JoinNonEmpty(b);
            JoinNonEmpty(a + b) == if x == "" then y else if y == "" then x else x + " / " + y
    ensures JoinNonEmpty([v]) == Text.Trim(v)
  {
    hide Text.Trim;
    assert [v][..0] == [];
    if b == [] {
      assert a + b == a;
    } else {
      var front, last := b[..|b| - 1], b[|b| - 1];
      PartsOfName(a, front, v);
      assert (a + b)[..|a + b| - 1] == a + front;
      SlashesAssociate(JoinNonEmpty(a), JoinNonEmpty(front), Text.Trim(last));
    }
  }

  lemma SlashesAssociate(x: string, y: string, z: string)
    ensures (x + " / " + y) + " / " + z == x + " / " + (y + " / " + z)
  {
  }

  /** The name of a target: service, environment, pod and container, of which any may be blank. */
  lemma {:induction false} TargetNameIs(service: string, env: string, pod: string, container: string)
    ensures TargetName(None) == ""
    ensures var s, e, p, c := Text.Trim(service), Text.Trim(env), Text.Trim(pod), Text.Trim(container);
            var name := TargetName(Some(Target(service, env, pod, container)));
            && (s != "" && e != "" && p != "" && c != "" ==> name == s + " / " + e + " / " + (p + " / " + c))
            && (s != "" && e != "" && p == "" && c == "" ==> name == s + " / " + e)
            && (s == "" && e == "" && p != "" && c != "" ==> name == p + " / " + c)
            && (s != "" && e == "" && p == "" && c == "" ==> name == s)
            && (s == "" && e == "" && p == "" && c != "" ==> name == c)
  {
    hide JoinNonEmpty, Text.Trim;
    PartsOfName([service, env], [pod, container], service);
    PartsOfName([service], [env], env);
    PartsOfName([pod], [container], pod);
    PartsOfName([service], [env], container);
    assert [service, env] + [pod, container] == [service, env, pod, container];
    assert [service] + [env] == [service, env] && [pod] + [container] == [pod, container];
  }

  /** A summary lists errors from left to right: those of the streams, of each result, of the raw output. */
  lemma {:induction false} ErrorsAreInOrder(t: Tree, r: Tree)
    ensures t.raw.None? ==>
              && Summarized(t.(results := t.results + [Result(r)])).errors ==
                   Summarized(t).errors + Summarized(r).errors
              && Summarized(t.(results := t.results + [NotAResult])).errors == Summarized(t).errors
              && Summarized(t.(raw := Some(r))).errors == Summarized(t).errors + Summarized(r).errors
    ensures t.raw.None? && t.results == [] ==>
              && Summarized(t.(fileLogs := t.fileLogs + [NotAFileLog])).errors == Summarized(t).errors
              && forall s: Stream ::
                   Summarized(t.(fileLogs := t.fileLogs + [FileLog(s)])).errors ==
                   Summarized(t).errors + if s.error == "" then [] else [s.error]
  {
    hide AppendUnique;
    SameResults(t, t.(results := t.results + [Result(r)]), |t.results|);
    SameResults(t, t.(results := t.results + [NotAResult]), |t.results|);
    SameResults(t, t.(raw := Some(r)), |t.results|);
    forall f: FileLog ensures (t.fileLogs + [f])[..|t.fileLogs|] == t.fileLogs {}
    forall f: FileLog
      ensures AddFileLogs(StdoutSummary(t.(fileLogs := t.fileLogs + [f])), t.fileLogs + [f]) ==
              AddFileLog(AddFileLogs(StdoutSummary(t), t.fileLogs), f)
    {
      assert StdoutSummary(t.(fileLogs := t.fileLogs + [f])) == StdoutSummary(t);
    }
  }

  lemma {:induction false} SameResults(t: Tree, u: Tree, n: nat)
    requires n <= |t.results| && n <= |u.results| && t.results[..n] == u.results[..n]
    requires t.target == u.target && t.logFiles == u.logFiles && t.stdout == u.stdout && t.fileLogs == u.fileLogs
    ensures AddResults(t, n) == AddResults(u, n)
  {
    if n > 0 {
      assert t.results[n - 1] == t.results[..n][n - 1] && u.results[n - 1] == u.results[..n][n - 1];
      assert t.results[..n - 1] == t.results[..n][..n - 1] && u.results[..n - 1] == u.results[..n][..n - 1];
      SameResults(t, u, n - 1);
    }
  }

  function AllLines(t: Tree): nat {
    |Lines(t, Stdout)| + |Lines(t, Files)|
  }

  function OwnLineCount(t: Tree): nat {
    |OwnLines(t, Stdout)| + |OwnLines(t, Files)|
  }

  lemma {:induction false} ResultMayName(t: Tree, n: nat)
    requires n < |t.results| && t.results[n].Result?
    ensures var r, before := t.results[n].tree, AddResults(t, n);
            AddResults(t, n + 1).target ==
              if before.target == "" || (AllLines(r) > 0 && before.stdoutLines + before.fileLogLines == 0)
              then Summarized(r).target else before.target
  {
    hide Lines;
    SummaryCountsLines(t.results[n].tree);
    ResultCounts(t, n);
  }

  /** None of the first `n` results has a line. */
  ghost predicate NoneHasLines(t: Tree, n: nat)
    requires n <= |t.results|
  {
    forall i :: 0 <= i < n && t.results[i].Result? ==> AllLines(t.results[i].tree) == 0
  }

  lemma {:induction false} NoLinesNoNewName(t: Tree, n: nat)
    requires n <= |t.results| && OwnLineCount(t) == 0
    requires NoneHasLines(t, n)
    ensures AddResults(t, n).stdoutLines + AddResults(t, n).fileLogLines == 0
    ensures TargetName(t.target) != "" ==> AddResults(t, n).target == TargetName(t.target)
  {
    hide Lines, OwnLines, AllLines;
    if n == 0 {
      ResultCounts(t, 0);
      FileLogErrors(StdoutSummary(t), t.fileLogs, "");
      NoResultLines(t);
    } else {
      NoLinesNoNewName(t, n - 1);
      if t.results[n - 1].Result? {
        ResultMayName(t, n - 1);
        SummaryCountsLines(t.results[n - 1].tree);
        NoLinesAtAll(t.results[n - 1].tree);
      }
    }
  }

  lemma NoLinesAtAll(t: Tree)
    ensures AllLines(t) == |Lines(t, Stdout)| + |Lines(t, Files)|
  {
  }

  lemma NoResultLines(t: Tree)
    ensures ResultLines(t, 0, Stdout) == [] && ResultLines(t, 0, Files) == []
  {
  }

  lemma {:induction false} NameStays(t: Tree, n: nat, m: nat)
    requires n <= m <= |t.results| && AddResults(t, n).target != ""
    requires AddResults(t, n).stdoutLines + AddResults(t, n).fileLogLines > 0
    ensures AddResults(t, m).target == AddResults(t, n).target
    ensures AddResults(t, m).stdoutLines + AddResults(t, m).fileLogLines > 0
    decreases m
  {
    if n < m {
      NameStays(t, n, m - 1);
      if t.results[m - 1].Result? {
        ResultMayName(t, m - 1);
        SummaryCountsLines(t.results[m - 1].tree);
      }
    }
  }

  lemma OwnCounts(t: Tree)
    ensures AddResults(t, 0).stdoutLines + AddResults(t, 0).fileLogLines == OwnLineCount(t)
    ensures AddResults(t, 0).target == TargetName(t.target)
    ensures Summarized(t).target == AddResults(t, |t.results|).target || AddResults(t, |t.results|).target == ""
  {
    ResultCounts(t, 0);
    FileLogErrors(StdoutSummary(t), t.fileLogs, "");
    NoResultLines(t);
  }

  lemma RawNames(t: Tree)
    requires t.results == [] && TargetName(t.target) == "" && t.raw.Some?
    ensures Summarized(t).target == Summarized(t.raw.value).target
  {
    OwnCounts(t);
  }

  lemma {:induction false} FirstWithLinesNames(t: Tree, k: nat)
    requires k < |t.results| && t.results[k].Result? && AllLines(t.results[k].tree) > 0 && OwnLineCount(t) == 0
    requires NoneHasLines(t, k)
    requires Summarized(t.results[k].tree).target != ""
    ensures Summarized(t).target == Summarized(t.results[k].tree).target
  {
    NoLinesNoNewName(t, k);
    ResultMayName(t, k);
    SummaryCountsLines(t.results[k].tree);
    NoLinesAtAll(t.results[k].tree);
    OwnCounts(t);
    hide Lines, OwnLines, AllLines, Summarized, OwnLineCount;
    NameStays(t, k + 1, |t.results|);
  }

  /**
   Whose name a summary has: its own, if it has lines of its own or if no result has any; otherwise that of the
   first result with lines. (Names are blank only where the data has none.)
   */
  lemma {:induction false} SummaryIsNamedAfter(t: Tree, k: nat)
    ensures TargetName(t.target) != "" && OwnLineCount(t) > 0 ==> Summarized(t).target == TargetName(t.target)
    ensures TargetName(t.target) != "" && OwnLineCount(t) == 0 && NoneHasLines(t, |t.results|) ==>
              Summarized(t).target == TargetName(t.target)
    ensures && k < |t.results| && t.results[k].Result? && AllLines(t.results[k].tree) > 0 && OwnLineCount(t) == 0
            && NoneHasLines(t, k) && Summarized(t.results[k].tree).target != "" ==>
              Summarized(t).target == Summarized(t.results[k].tree).target
    ensures t.results == [] && TargetName(t.target) == "" && t.raw.Some? ==>
              Summarized(t).target == Summarized(t.raw.value).target
  {
    hide Lines, OwnLines, AllLines, Summarized, OwnLineCount, TargetName;
    OwnCounts(t);
    if TargetName(t.target) != "" && OwnLineCount(t) > 0 { NameStays(t, 0, |t.results|); }
    if t.results == [] && TargetName(t.target) == "" && t.raw.Some? { RawNames(t); }
    if OwnLineCount(t) == 0 && NoneHasLines(t, |t.results|) { NoLinesNoNewName(t, |t.results|); }
    if && k < |t.results| && t.results[k].Result? && AllLines(t.results[k].tree) > 0 && OwnLineCount(t) == 0
       && NoneHasLines(t, k) && Summarized(t.results[k].tree).target != "" {
      FirstWithLinesNames(t, k);
    }
  }

  // ----- Batches -----

  datatype Job = Job(env: string, service: string)

  datatype Response = Response(command: seq<string>, summary: Summary, raw: Tree)

  /** How one job ended; the last case is a search that returned neither a response nor an error. */
  datatype Outcome = Answered(response: Response) | Failed(error: string) | Nothing

  function Join(parts: seq<string>): string {
    if parts == [] then "" else if |parts| == 1 then parts[0] else parts[0] + " " + Join(parts[1..])
  }

  /** The words of a command stand in order, with a space between two. */
  lemma {:induction false} WordsOfCommand(a: seq<string>, b: seq<string>, word: string)
    ensures Join([]) == "" && Join([word]) == word
    ensures a != [] && b != [] ==> Join(a + b) == Join(a) + [' '] + Join(b)
  {
    if a != [] && b != [] {
      assert " " == [' '];
      assert (a + b)[1..] == a[1..] + b;
      if |a| > 1 { WordsOfCommand(a[1..], b, word); }
    }
  }

  function Wrapped(raw: Option<Tree>): Tree {
    Tree(None, [], None, [], [], raw)
  }

  /** The entry of one job in the batch's own output. */
  function Entry(outcome: Outcome): Result {
    match outcome
    case Answered(response) => Result(Wrapped(Some(response.raw)))
    case Failed(_) => Result(Wrapped(None))
    case Nothing => NotAResult
  }

  function BatchTree(outcomes: seq<Outcome>): Tree {
    Tree(None, [], None, [], seq(|outcomes|, i requires 0 <= i < |outcomes| => Entry(outcomes[i])), None)
  }

  function AddOutcome(s: Summary, job: Job, outcome: Outcome): Summary {
    match outcome
    case Answered(response) => AddCounts(s, response.summary)
    case Failed(error) => s.(errors := s.errors + [job.env + "/" + job.service + ": " + error])
    case Nothing => s
  }

  function BatchSummary(jobs: seq<Job>, outcomes: seq<Outcome>, n: nat): Summary
    requires n <= |jobs| == |outcomes|
  {
    if n == 0 then Summary("batch", [], 0, 0, |jobs|, [])
    else AddOutcome(BatchSummary(jobs, outcomes, n - 1), jobs[n - 1], outcomes[n - 1])
  }

  /** The commands of the jobs that were answered, in order. */
  function Commands(outcomes: seq<Outcome>): seq<string> {
    if outcomes == [] then []
    else
      Commands(outcomes[..|outcomes| - 1]) +
      match outcomes[|outcomes| - 1] { case Answered(response) => [Join(response.command)] case _ => [] }
  }

  /** The commands of a batch, built up from none: an answer adds its words, any other outcome nothing. */
  lemma CommandsAre(outcomes: seq<Outcome>, last: Outcome)
    ensures Commands([]) == []
    ensures Commands(outcomes + [last]) ==
              Commands(outcomes) + if last.Answered? then [Join(last.response.command)] else []
  {
    assert (outcomes + [last])[..|outcomes|] == outcomes;
  }

  /** The collecting loop of `runSearchBatch`, when all jobs have ended. */
  method CollectBatch(jobs: seq<Job>, outcomes: seq<Outcome>) returns (batch: Response)
    requires |jobs| == |outcomes|
    ensures batch.summary == BatchSummary(jobs, outcomes, |jobs|)
    ensures batch.raw == BatchTree(outcomes) && batch.command == Commands(outcomes)
    ensures |batch.raw.results| == |outcomes|
    ensures forall i :: 0 <= i < |outcomes| ==> (batch.raw.results[i].NotAResult? <==> outcomes[i].Nothing?)
  {
    var results := [];
    var commands := [];
    var summary := Summary("batch", [], 0, 0, |jobs|, []);
    for i := 0 to |jobs|
      invariant summary == BatchSummary(jobs, outcomes, i) && commands == Commands(outcomes[..i])
      invariant |results| == i && forall k :: 0 <= k < i ==> results[k] == Entry(outcomes[k])
    {
      assert outcomes[..i + 1][..i] == outcomes[..i];
      match outcomes[i]
      case Failed(error) =>
        summary := summary.(errors := summary.errors + [jobs[i].env + "/" + jobs[i].service + ": " + error]);
        results := results + [Result(Wrapped(None))];
      case Nothing =>
        results := results + [NotAResult];
      case Answered(response) =>
        var logFiles := AppendUniqueStrings(summary.logFiles, response.summary.logFiles);
        summary := summary.(stdoutLines := summary.stdoutLines + response.summary.stdoutLines,
                            fileLogLines := summary.fileLogLines + response.summary.fileLogLines,
                            logFiles := logFiles, errors := summary.errors + response.summary.errors);
        commands := commands + [Join(response.command)];
        results := results + [Result(Wrapped(Some(response.raw)))];
    }
    assert outcomes[..|outcomes|] == outcomes;
    batch := Response(commands, summary, Tree(None, [], None, [], results, None));
  }

  /** Every answer carries the summary of its own output, as `searchOne` makes it. */
  ghost predicate Honest(outcomes: seq<Outcome>) {
    forall i :: 0 <= i < |outcomes| && outcomes[i].Answered? ==>
      outcomes[i].response.summary == Summarized(outcomes[i].response.raw)
  }

  function FailuresAmong(outcomes: seq<Outcome>, n: nat): nat
    requires n <= |outcomes|
  {
    if n == 0 then 0 else FailuresAmong(outcomes, n - 1) + if outcomes[n - 1].Failed? then 1 else 0
  }

  lemma {:induction false} UniqueMembers(dst: seq<string>, values: seq<string>, s: string)
    ensures s in AppendUnique(dst, values) <==> s in dst || (s in values && !Text.IsBlank(s))
  {
    if values != [] {
      UniqueMembers(dst, values[..|values| - 1], s);
      assert values == values[..|values| - 1] + [values[|values| - 1]];
    }
  }

  /** Removing duplicates first makes no difference. */
  lemma {:induction false} UniqueFirst(dst: seq<string>, values: seq<string>)
    ensures AppendUnique(dst, AppendUnique([], values)) == AppendUnique(dst, values)
  {
    if values != [] {
      var front, last := values[..|values| - 1], values[|values| - 1];
      var unique := AppendUnique([], front);
      UniqueFirst(dst, front);
      UniqueMembers([], front, last);
      UniqueMembers(dst, front, last);
      assert (unique + [last])[..|unique|] == unique;
    }
  }

  lemma {:induction false} WrappedSummary(raw: Tree)
    ensures var w, s := Summarized(Wrapped(Some(raw))), Summarized(raw);
            && w.stdoutLines == s.stdoutLines && w.fileLogLines == s.fileLogLines && w.errors == s.errors
            && w.logFiles == AppendUnique([], s.logFiles)
    ensures var w := Summarized(Wrapped(None));
            w.stdoutLines == 0 && w.fileLogLines == 0 && w.errors == [] && w.logFiles == []
  {
    hide AppendUnique;
    EmptySummary(Wrapped(Some(raw)));
    EmptySummary(Wrapped(None));
  }

  lemma EmptySummary(t: Tree)
    requires t.results == [] && t.fileLogs == [] && t.logFiles == [] && t.stdout == None
    ensures var s := AddResults(t, 0);
            s.stdoutLines == 0 && s.fileLogLines == 0 && s.errors == [] && s.logFiles == []
  {
  }

  /** Equal totals and files, and one error more in the batch for each failed job. */
  ghost predicate Agrees(b: Summary, t: Summary, failures: nat) {
    && b.stdoutLines == t.stdoutLines && b.fileLogLines == t.fileLogLines && b.logFiles == t.logFiles
    && |b.errors| == |t.errors| + failures
    && (failures == 0 ==> b.errors == t.errors)
  }

  lemma {:induction false} AnsweredAgrees(b: Summary, t: Summary, failures: nat, raw: Tree)
    requires Agrees(b, t, failures)
    ensures Agrees(AddCounts(b, Summarized(raw)), AddResult(t, Summarized(Wrapped(Some(raw)))), failures)
  {
    hide AppendUnique, Summarized;
    WrappedSummary(raw);
    UniqueFirst(b.logFiles, Summarized(raw).logFiles);
  }

  lemma {:induction false} FailedAgrees(b: Summary, t: Summary, failures: nat, error: string)
    requires Agrees(b, t, failures)
    ensures Agrees(b.(errors := b.errors + [error]), AddResult(t, Summarized(Wrapped(None))), failures + 1)
  {
    hide AppendUnique, Summarized;
    WrappedSummary(Wrapped(None));
    UniqueNothing(t.logFiles);
  }

  lemma NothingAgrees(jobs: seq<Job>, outcomes: seq<Outcome>)
    requires |jobs| == |outcomes|
    ensures Agrees(BatchSummary(jobs, outcomes, 0), AddResults(BatchTree(outcomes), 0), 0)
  {
  }

  lemma {:induction false} BatchStep(jobs: seq<Job>, outcomes: seq<Outcome>, n: nat)
    requires n <= |jobs| == |outcomes| && Honest(outcomes)
    ensures Agrees(BatchSummary(jobs, outcomes, n), AddResults(BatchTree(outcomes), n), FailuresAmong(outcomes, n))
  {
    hide Agrees, AddCounts, AddResult, Summarized;
    if n == 0 {
      NothingAgrees(jobs, outcomes);
    } else {
      BatchStep(jobs, outcomes, n - 1);
      var b, t := BatchSummary(jobs, outcomes, n - 1), AddResults(BatchTree(outcomes), n - 1);
      var failures := FailuresAmong(outcomes, n - 1);
      match outcomes[n - 1]
      case Answered(response) =>
        AnsweredAgrees(b, t, failures, response.raw);
      case Failed(error) =>
        FailedAgrees(b, t, failures, jobs[n - 1].env + "/" + jobs[n - 1].service + ": " + error);
      case Nothing =>
    }
  }

  lemma UniqueNothing(dst: seq<string>)
    ensures AppendUnique(dst, []) == dst
  {
  }

  /**
   The incremental totals of a batch are those that summarising its own output would give; the error
   lists agree exactly when no job failed.
   */
  lemma BatchAgreesWithItsTree(jobs: seq<Job>, outcomes: seq<Outcome>)
    requires |jobs| == |outcomes| && Honest(outcomes)
    ensures var b, t := BatchSummary(jobs, outcomes, |jobs|), Summarized(BatchTree(outcomes));
            && b.stdoutLines == t.stdoutLines && b.fileLogLines == t.fileLogLines && b.logFiles == t.logFiles
            && (b.errors == t.errors <==> forall i :: 0 <= i < |outcomes| ==> !outcomes[i].Failed?)
  {
    BatchStep(jobs, outcomes, |jobs|);
    CountFailures(outcomes, |outcomes|);
  }

  /** The batch is named so, counts its jobs, and says of each failed one where it ran and why it failed. */
  lemma {:induction false} BatchReports(jobs: seq<Job>, outcomes: seq<Outcome>, n: nat, e: string)
    requires n <= |jobs| == |outcomes|
    ensures var b := BatchSummary(jobs, outcomes, n);
            && b.target == "batch" && b.jobCount == |jobs|
            && (e in b.errors <==>
                  exists i :: 0 <= i < n &&
                    match outcomes[i]
                    case Failed(error) => e == jobs[i].env + "/" + jobs[i].service + ": " + error
                    case Answered(response) => e in response.summary.errors
                    case Nothing => false)
  {
    if n > 0 { BatchReports(jobs, outcomes, n - 1, e); }
  }

  lemma {:induction false} CountFailures(outcomes: seq<Outcome>, n: nat)
    requires n <= |outcomes|
    ensures FailuresAmong(outcomes, n) == 0 <==> forall i :: 0 <= i < n ==> !outcomes[i].Failed?
  {
    if n > 0 { CountFailures(outcomes, n - 1); }
  }
}
