/** The fingerprint of a proof: the digest of everything its result may depend on. Digests are a
    parameter; what is needed of them is asked only of the texts actually digested. */
module Fingerprints {
  import opened Text
  import opened Wrappers

  type Path = string

  /** What the gate can see of the file system when it scans: the regular files with their contents,
      the directories with the sorted recursive listing of what is in them that is not a directory,
      and the headers found under a directory. A listed path that is not a file is a broken link. */
  datatype FileSystem = FileSystem(files: map<Path, string>, listings: map<Path, seq<Path>>,
                                   headers: map<Path, seq<Path>>)

  datatype Status = Present(content: string) | Missing

  /** One fingerprinted input with the files that stand for it. */
  datatype Input = Input(path: Path, files: seq<(Path, Status)>)

  type Snapshot = seq<Input>

  function StatusOf(fs: FileSystem, path: Path): Status {
    if path in fs.files && path !in fs.listings then Present(fs.files[path]) else Missing
  }

  function FilesOf(fs: FileSystem, input: Path): seq<Path> {
    if input in fs.listings then fs.listings[input] else [input]
  }

  function StatusesOf(fs: FileSystem, paths: seq<Path>): seq<(Path, Status)> {
    if paths == [] then []
    else StatusesOf(fs, paths[..|paths| - 1]) + [(paths[|paths| - 1], StatusOf(fs, paths[|paths| - 1]))]
  }

  function SnapshotOf(fs: FileSystem, inputs: seq<Path>): Snapshot {
    if inputs == [] then []
    else
      var last := inputs[|inputs| - 1];
      SnapshotOf(fs, inputs[..|inputs| - 1]) + [Input(last, StatusesOf(fs, FilesOf(fs, last)))]
  }

  // ---- the pre-image ----

  function Code(hash: string -> string, status: Status): string {
    match status
    case Present(content) => hash(content)
    case Missing => "missing"
  }

  function FileLine(hash: string -> string, file: (Path, Status)): string {
    file.0 + [':'] + Code(hash, file.1)
  }

  function FileLines(hash: string -> string, files: seq<(Path, Status)>): seq<string> {
    seq(|files|, i requires 0 <= i < |files| => FileLine(hash, files[i]))
  }

  function InputLines(hash: string -> string, input: Input): seq<string> {
    ["path:" + input.path] + FileLines(hash, input.files)
  }

  function SnapshotLines(hash: string -> string, snapshot: Snapshot): seq<string> {
    if snapshot == [] then [] else InputLines(hash, snapshot[0]) + SnapshotLines(hash, snapshot[1..])
  }

  /** The text that is digested for a list of inputs. */
  function PreImage(hash: string -> string, snapshot: Snapshot): string {
    Unlines(SnapshotLines(hash, snapshot))
  }

  lemma {:induction false} SnapshotLinesSnoc(hash: string -> string, snapshot: Snapshot, last: Input)
    ensures SnapshotLines(hash, snapshot + [last]) == SnapshotLines(hash, snapshot) + InputLines(hash, last)
  {
    if snapshot == [] {
      assert snapshot + [last] == [last];
      assert [last][1..] == [];
      assert InputLines(hash, last) + [] == InputLines(hash, last);
    } else {
      assert (snapshot + [last])[1..] == snapshot[1..] + [last];
      SnapshotLinesSnoc(hash, snapshot[1..], last);
    }
  }

  lemma UnlinesOne(line: string)
    ensures Unlines([line]) == line + "\n"
  {
    assert [line][1..] == [];
    assert line + ['\n'] + "" == line + "\n";
  }

  /** The lines of one input, appended to the text so far. */
  method AppendInput(hash: string -> string, fs: FileSystem, input: Path, content: string) returns (extended: string)
    ensures extended == content + Unlines(InputLines(hash, Input(input, StatusesOf(fs, FilesOf(fs, input)))))
  {
    var files := if input in fs.listings then fs.listings[input] else [input];
    ghost var text := Unlines(InputLines(hash, Input(input, [])));
    NoFiles(hash, fs, input, files);
    extended := content + ("path:" + input + "\n");
    for j := 0 to |files|
      invariant text == Unlines(InputLines(hash, Input(input, StatusesOf(fs, files[..j]))))
      invariant extended == content + text
    {
      var path := files[j];
      var line;
      if path in fs.files && path !in fs.listings {
        line := path + ":" + hash(fs.files[path]);
      } else {
        line := path + ":missing";
        MissingLine(path);
      }
      MoreFiles(hash, fs, input, files, j, line);
      Associate(content, text, line + "\n");
      extended := extended + (line + "\n");
      text := text + (line + "\n");
    }
    assert files[..|files|] == files;
  }

  lemma MissingLine(path: Path)
    ensures path + ":missing" == path + ":" + "missing"
  {
    assert ":missing" == ":" + "missing";
    Associate(path, ":", "missing");
  }

  lemma NoFiles(hash: string -> string, fs: FileSystem, input: Path, files: seq<Path>)
    ensures Unlines(InputLines(hash, Input(input, []))) == "path:" + input + "\n"
    ensures StatusesOf(fs, files[..0]) == []
  {
    assert InputLines(hash, Input(input, [])) == ["path:" + input];
    UnlinesOne("path:" + input);
  }

  lemma MoreInputs(hash: string -> string, fs: FileSystem, inputs: seq<Path>, i: nat)
    requires i < |inputs|
    ensures PreImage(hash, SnapshotOf(fs, inputs[..i + 1]))
         == PreImage(hash, SnapshotOf(fs, inputs[..i]))
            + Unlines(InputLines(hash, Input(inputs[i], StatusesOf(fs, FilesOf(fs, inputs[i])))))
  {
    assert inputs[..i + 1][..i] == inputs[..i];
    var last := Input(inputs[i], StatusesOf(fs, FilesOf(fs, inputs[i])));
    SnapshotLinesSnoc(hash, SnapshotOf(fs, inputs[..i]), last);
    UnlinesAppend(SnapshotLines(hash, SnapshotOf(fs, inputs[..i])), InputLines(hash, last));
  }

  /** Scans and digests a list of inputs: the loop appends to `content` line by line. */
  method HashInputs(hash: string -> string, fs: FileSystem, inputs: seq<Path>) returns (digest: string)
    ensures digest == hash(PreImage(hash, SnapshotOf(fs, inputs)))
  {
    var content := "";
    assert inputs[..0] == [];
    for i := 0 to |inputs|
      invariant content == PreImage(hash, SnapshotOf(fs, inputs[..i]))
    {
      MoreInputs(hash, fs, inputs, i);
      content := AppendInput(hash, fs, inputs[i], content);
    }
    assert inputs[..|inputs|] == inputs;
    digest := hash(content);
  }

  lemma MoreFiles(hash: string -> string, fs: FileSystem, input: Path, files: seq<Path>, j: nat, line: string)
    requires j < |files| && line == files[j] + ":" + Code(hash, StatusOf(fs, files[j]))
    ensures Unlines(InputLines(hash, Input(input, StatusesOf(fs, files[..j + 1]))))
         == Unlines(InputLines(hash, Input(input, StatusesOf(fs, files[..j])))) + (line + "\n")
  {
    var before := StatusesOf(fs, files[..j]);
    assert files[..j + 1][..j] == files[..j];
    assert StatusesOf(fs, files[..j + 1]) == before + [(files[j], StatusOf(fs, files[j]))];
    assert InputLines(hash, Input(input, StatusesOf(fs, files[..j + 1])))
        == InputLines(hash, Input(input, before)) + [line];
    UnlinesAppend(InputLines(hash, Input(input, before)), [line]);
    UnlinesOne(line);
  }

  // ---- injectivity ----

  predicate IsHexDigit(c: char) {
    '0' <= c <= '9' || 'a' <= c <= 'f'
  }

  /** Digests look like SHA-256 in hexadecimal. */
  ghost predicate Digests(hash: string -> string) {
    forall x: string :: |hash(x)| == 64 && forall i :: 0 <= i < 64 ==> IsHexDigit(hash(x)[i])
  }

  /** No two texts of a set have one digest. */
  ghost predicate CollisionFree(hash: string -> string, texts: set<string>) {
    forall x, y :: x in texts && y in texts && hash(x) == hash(y) ==> x == y
  }

  predicate GoodPath(path: Path) {
    path != "" && path[0] == '/' && '\n' !in path
  }

  /** Every path is absolute and without newlines. */
  predicate GoodPaths(snapshot: Snapshot) {
    forall i :: 0 <= i < |snapshot| ==>
      GoodPath(snapshot[i].path) && forall j :: 0 <= j < |snapshot[i].files| ==> GoodPath(snapshot[i].files[j].0)
  }

  /** The contents a snapshot has digested. */
  function Contents(snapshot: Snapshot): set<string> {
    set i, j | 0 <= i < |snapshot| && 0 <= j < |snapshot[i].files| && snapshot[i].files[j].1.Present? ::
      snapshot[i].files[j].1.content
  }

  lemma CodeShape(hash: string -> string, status: Status)
    requires Digests(hash)
    ensures ':' !in Code(hash, status) && '\n' !in Code(hash, status)
    ensures Code(hash, status) == "missing" <==> status.Missing?
  {
    if status.Present? {
      assert |hash(status.content)| == 64;
    }
  }

  lemma FileLineDetermines(hash: string -> string, a: (Path, Status), b: (Path, Status), texts: set<string>)
    requires Digests(hash) && CollisionFree(hash, texts)
    requires a.1.Present? ==> a.1.content in texts
    requires b.1.Present? ==> b.1.content in texts
    requires FileLine(hash, a) == FileLine(hash, b)
    ensures a == b
  {
    CodeShape(hash, a.1);
    CodeShape(hash, b.1);
    LastSeparator(a.0, Code(hash, a.1), b.0, Code(hash, b.1), ':');
  }

  /** A header line and a file line are told apart by their first characters. */
  predicate IsHeader(line: string) {
    "path:" <= line
  }

  lemma LinesShape(hash: string -> string, snapshot: Snapshot)
    requires Digests(hash) && GoodPaths(snapshot)
    ensures var lines := SnapshotLines(hash, snapshot); forall k :: 0 <= k < |lines| ==> '\n' !in lines[k]
    ensures snapshot == [] <==> SnapshotLines(hash, snapshot) == []
    ensures snapshot != [] ==> IsHeader(SnapshotLines(hash, snapshot)[0])
    decreases |snapshot|
  {
    if snapshot != [] {
      var first, rest := InputLines(hash, snapshot[0]), SnapshotLines(hash, snapshot[1..]);
      LinesShape(hash, snapshot[1..]);
      forall k | 0 <= k < |first| + |rest| ensures '\n' !in (first + rest)[k] {
        if 1 <= k < |first| {
          CodeShape(hash, snapshot[0].files[k - 1].1);
          assert GoodPath(snapshot[0].files[k - 1].0);
        }
      }
    }
  }

  /** The lines of the first input's files are no headers ... */
  lemma FileLineAt(hash: string -> string, s: Snapshot, k: nat)
    requires GoodPaths(s) && s != [] && k < |s[0].files|
    ensures k + 1 < |SnapshotLines(hash, s)| && !IsHeader(SnapshotLines(hash, s)[k + 1])
  {
    assert InputLines(hash, s[0])[k + 1] == FileLine(hash, s[0].files[k]);
    assert GoodPath(s[0].files[k].0);
    assert FileLine(hash, s[0].files[k])[0] == '/';
  }

  /** ... and the line after them, if there is one, is. */
  lemma HeaderAfterFiles(hash: string -> string, s: Snapshot)
    requires Digests(hash) && GoodPaths(s) && s != []
    requires |s[0].files| + 1 < |SnapshotLines(hash, s)|
    ensures IsHeader(SnapshotLines(hash, s)[|s[0].files| + 1])
  {
    LinesShape(hash, s[1..]);
    assert |InputLines(hash, s[0])| == |s[0].files| + 1;
  }

  lemma SameFileCount(hash: string -> string, s: Snapshot, t: Snapshot)
    requires Digests(hash) && GoodPaths(s) && GoodPaths(t) && s != [] && t != []
    requires SnapshotLines(hash, s) == SnapshotLines(hash, t)
    ensures |s[0].files| >= |t[0].files|
  {
    if |s[0].files| < |t[0].files| {
      FileLineAt(hash, t, |s[0].files|);
      HeaderAfterFiles(hash, s);
    }
  }

  lemma FirstInputDetermined(hash: string -> string, s: Snapshot, t: Snapshot, texts: set<string>)
    requires Digests(hash) && GoodPaths(s) && GoodPaths(t) && s != [] && t != []
    requires CollisionFree(hash, texts) && Contents(s) <= texts && Contents(t) <= texts
    requires SnapshotLines(hash, s) == SnapshotLines(hash, t)
    ensures s[0] == t[0] && SnapshotLines(hash, s[1..]) == SnapshotLines(hash, t[1..])
  {
    SameFileCount(hash, s, t);
    SameFileCount(hash, t, s);
    var lines, n := SnapshotLines(hash, s), |s[0].files|;
    var restS, restT := SnapshotLines(hash, s[1..]), SnapshotLines(hash, t[1..]);
    assert lines == InputLines(hash, s[0]) + restS && lines == InputLines(hash, t[0]) + restT;
    assert lines[..n + 1] == InputLines(hash, s[0]) && lines[..n + 1] == InputLines(hash, t[0]);
    assert lines[n + 1..] == restS && lines[n + 1..] == restT;
    var x, y := InputLines(hash, s[0]), InputLines(hash, t[0]);
    assert x[0] == "path:" + s[0].path && y[0] == "path:" + t[0].path;
    assert x[0][5..] == s[0].path && y[0][5..] == t[0].path;
    forall k | 0 <= k < n ensures s[0].files[k] == t[0].files[k] {
      assert x[k + 1] == FileLine(hash, s[0].files[k]) && y[k + 1] == FileLine(hash, t[0].files[k]);
      assert s[0].files[k].1.Present? ==> s[0].files[k].1.content in Contents(s);
      assert t[0].files[k].1.Present? ==> t[0].files[k].1.content in Contents(t);
      FileLineDetermines(hash, s[0].files[k], t[0].files[k], texts);
    }
    assert s[0].files == t[0].files;
  }

  lemma {:induction false} LinesDetermineSnapshot(hash: string -> string, s: Snapshot, t: Snapshot, texts: set<string>)
    requires Digests(hash) && GoodPaths(s) && GoodPaths(t)
    requires CollisionFree(hash, texts) && Contents(s) <= texts && Contents(t) <= texts
    requires SnapshotLines(hash, s) == SnapshotLines(hash, t)
    ensures s == t
    decreases |s|
  {
    LinesShape(hash, s);
    LinesShape(hash, t);
    if s != [] {
      FirstInputDetermined(hash, s, t, texts);
      assert Contents(s[1..]) <= Contents(s) by {
        forall c | c in Contents(s[1..]) ensures c in Contents(s) {
          var i, j :| 0 <= i < |s[1..]| && 0 <= j < |s[1..][i].files| && s[1..][i].files[j].1.Present?
                      && s[1..][i].files[j].1.content == c;
          assert s[i + 1] == s[1..][i];
        }
      }
      assert Contents(t[1..]) <= Contents(t) by {
        forall c | c in Contents(t[1..]) ensures c in Contents(t) {
          var i, j :| 0 <= i < |t[1..]| && 0 <= j < |t[1..][i].files| && t[1..][i].files[j].1.Present?
                      && t[1..][i].files[j].1.content == c;
          assert t[i + 1] == t[1..][i];
        }
      }
      LinesDetermineSnapshot(hash, s[1..], t[1..], texts);
      assert s == [s[0]] + s[1..] && t == [t[0]] + t[1..];
    }
  }

  /** The pre-image is injective: with absolute paths free of newlines, and no digest collision
      among the contents, two snapshots with one pre-image have the same inputs, the same files
      under each of them, and the same contents and missing files. */
  lemma PreImageInjective(hash: string -> string, s: Snapshot, t: Snapshot, texts: set<string>)
    requires Digests(hash) && GoodPaths(s) && GoodPaths(t)
    requires CollisionFree(hash, texts) && Contents(s) <= texts && Contents(t) <= texts
    requires PreImage(hash, s) == PreImage(hash, t)
    ensures s == t
  {
    LinesShape(hash, s);
    LinesShape(hash, t);
    LinesRoundTrip(SnapshotLines(hash, s));
    LinesRoundTrip(SnapshotLines(hash, t));
    LinesDetermineSnapshot(hash, s, t, texts);
  }

  // ---- the fingerprint ----

  /** Everything the result of one proof is taken to depend on. The command is the CMake list. */
  datatype Task = Task(command: string, timeout: string, directory: string, common: Snapshot, own: Snapshot)

  function Settings(t: Task): string {
    t.command + [';'] + t.timeout + [';'] + t.directory
  }

  function FingerprintText(hash: string -> string, t: Task): string {
    "v1;" + hash(PreImage(hash, t.common)) + ";" + hash(PreImage(hash, t.own)) + ";" + Settings(t)
  }

  function Fingerprint(hash: string -> string, t: Task): string {
    hash(FingerprintText(hash, t))
  }

  /** The texts digested on the way to a fingerprint. */
  function Digested(hash: string -> string, t: Task): set<string> {
    Contents(t.common) + Contents(t.own)
    + {PreImage(hash, t.common), PreImage(hash, t.own), FingerprintText(hash, t)}
  }

  /** Absolute paths free of newlines, and a timeout, which is a number, without semicolons. */
  predicate GoodTask(t: Task) {
    GoodPaths(t.common) && GoodPaths(t.own) && ';' !in t.timeout
  }

  lemma DigestsLineUp(hash: string -> string, a: Task, b: Task)
    requires Digests(hash) && FingerprintText(hash, a) == FingerprintText(hash, b)
    ensures hash(PreImage(hash, a.common)) == hash(PreImage(hash, b.common))
    ensures hash(PreImage(hash, a.own)) == hash(PreImage(hash, b.own))
    ensures Settings(a) == Settings(b)
  {
    var s := FingerprintText(hash, a);
    FixedFields(hash(PreImage(hash, a.common)), hash(PreImage(hash, a.own)), Settings(a), s);
    FixedFields(hash(PreImage(hash, b.common)), hash(PreImage(hash, b.own)), Settings(b), s);
  }

  lemma FixedFields(x: string, y: string, rest: string, s: string)
    requires |x| == 64 && |y| == 64 && s == "v1;" + x + ";" + y + ";" + rest
    ensures s[3..67] == x && s[68..132] == y && s[133..] == rest
  {
  }

  function Semicolons(s: string): nat {
    if s == "" then 0 else (if s[0] == ';' then 1 else 0) + Semicolons(s[1..])
  }

  lemma {:induction false} SemicolonsAppend(left: string, right: string)
    ensures Semicolons(left + right) == Semicolons(left) + Semicolons(right)
  {
    if left == "" {
      assert left + right == right;
    } else {
      assert (left + right)[1..] == left[1..] + right;
      SemicolonsAppend(left[1..], right);
    }
  }

  lemma LongerDirectory(x: string, d: string, y: string, e: string)
    requires x + [';'] + d == y + [';'] + e && |d| < |e|
    ensures Semicolons(d) < Semicolons(e)
  {
    var s := x + [';'] + d;
    var k := |e| - |d| - 1;
    assert s[|y| + 1..] == e && s[|x| + 1..] == d;
    assert e == e[..k] + ([';'] + d) by {
      assert e[k] == s[|x|] == ';';
      assert e[k + 1..] == d;
    }
    SemicolonsAppend(e[..k], [';'] + d);
    assert ([';'] + d)[1..] == d;
  }

  /** Of two settings with one text, the command, the timeout and the directory agree if and only if
      the directories have the same number of semicolons. */
  lemma SettingsDetermined(a: Task, b: Task)
    requires ';' !in a.timeout && ';' !in b.timeout && Settings(a) == Settings(b)
    ensures a.command == b.command && a.timeout == b.timeout && a.directory == b.directory
       <==> Semicolons(a.directory) == Semicolons(b.directory)
  {
    var x, y := a.command + [';'] + a.timeout, b.command + [';'] + b.timeout;
    if |a.directory| < |b.directory| {
      LongerDirectory(x, a.directory, y, b.directory);
    } else if |b.directory| < |a.directory| {
      LongerDirectory(y, b.directory, x, a.directory);
    } else {
      var s := x + [';'] + a.directory;
      assert s[|x| + 1..] == a.directory && s[|y| + 1..] == b.directory && s[..|x|] == x && s[..|y|] == y;
      LastSeparator(a.command, a.timeout, b.command, b.timeout, ';');
    }
  }

  /** Two tasks with one fingerprint have the same inputs, and they are one task if and only if
      their directories have the same number of semicolons. */
  lemma FingerprintInjective(hash: string -> string, a: Task, b: Task, texts: set<string>)
    requires Digests(hash) && CollisionFree(hash, texts)
    requires GoodTask(a) && GoodTask(b) && Digested(hash, a) <= texts && Digested(hash, b) <= texts
    requires Fingerprint(hash, a) == Fingerprint(hash, b)
    ensures a.common == b.common && a.own == b.own
    ensures a == b <==> Semicolons(a.directory) == Semicolons(b.directory)
  {
    assert FingerprintText(hash, a) in Digested(hash, a) && FingerprintText(hash, b) in Digested(hash, b);
    DigestsLineUp(hash, a, b);
    assert PreImage(hash, a.common) in Digested(hash, a) && PreImage(hash, b.common) in Digested(hash, b);
    assert PreImage(hash, a.own) in Digested(hash, a) && PreImage(hash, b.own) in Digested(hash, b);
    PreImageInjective(hash, a.common, b.common, texts);
    PreImageInjective(hash, a.own, b.own, texts);
    SettingsDetermined(a, b);
  }

  /** Two tasks that the fingerprint cannot tell apart: they agree in their inputs and in the settings
      text, and their directories have different numbers of semicolons. */
  predicate Confusable(a: Task, b: Task) {
    && a.common == b.common && a.own == b.own && Settings(a) == Settings(b)
    && Semicolons(a.directory) != Semicolons(b.directory)
  }

  /** Exactly when two tasks have one fingerprint. */
  lemma FingerprintExact(hash: string -> string, a: Task, b: Task, texts: set<string>)
    requires Digests(hash) && CollisionFree(hash, texts)
    requires GoodTask(a) && GoodTask(b) && Digested(hash, a) <= texts && Digested(hash, b) <= texts
    ensures Fingerprint(hash, a) == Fingerprint(hash, b) <==> a == b || Confusable(a, b)
  {
    if Fingerprint(hash, a) == Fingerprint(hash, b) {
      FingerprintInjective(hash, a, b, texts);
      assert FingerprintText(hash, a) in Digested(hash, a) && FingerprintText(hash, b) in Digested(hash, b);
      DigestsLineUp(hash, a, b);
    }
  }

  /** Different settings with one text, as an input. */
  lemma AmbiguousDirectory(common: Snapshot, own: Snapshot)
    ensures var a := Task("x", "5", "/p;7;/q", common, own);
            var b := Task("x;5;/p", "7", "/q", common, own);
            && a != b && Confusable(a, b)
            && forall hash: string -> string :: FingerprintText(hash, a) == FingerprintText(hash, b)
  {
    var a := Task("x", "5", "/p;7;/q", common, own);
    var b := Task("x;5;/p", "7", "/q", common, own);
    SameSettings(a, b);
    assert a.command != b.command;
    TwoSemicolons();
    NoSemicolons("/q");
  }

  lemma SameSettings(a: Task, b: Task)
    requires a.command == "x" && a.timeout == "5" && a.directory == "/p;7;/q"
    requires b.command == "x;5;/p" && b.timeout == "7" && b.directory == "/q"
    ensures Settings(a) == Settings(b)
  {
    assert Settings(a) == "x;5;/p;7;/q" && Settings(b) == "x;5;/p;7;/q";
  }

  lemma TwoSemicolons()
    ensures Semicolons("/p;7;/q") > 0
  {
    NoSemicolons("/p;7;/q");
    assert "/p;7;/q"[2] == ';';
  }

  lemma {:induction false} NoSemicolons(s: string)
    ensures Semicolons(s) == 0 <==> ';' !in s
  {
    if s != "" {
      NoSemicolons(s[1..]);
    }
  }
}
