/** The proof gate with its cache of successful results: which proofs it runs, which results it
    reuses, and what it reports. The checker and the digest are parameters. */
module ProofGate {
  import opened Fingerprints
  import opened Text
  import opened Wrappers

  /** A registered proof. */
  datatype Proof = Proof(name: string, command: string, timeout: string, directory: string,
                         inputs: seq<Path>, headerDirectories: seq<Path>)

  datatype Config = Config(proofs: seq<Proof>, sharedInputs: seq<Path>)

  /** What running a proof's command yields. */
  datatype Outcome = Outcome(result: string, output: string, error: string)

  type Checker = Task -> Outcome

  datatype Verdict = Reused | Passed | Failed

  datatype Report = Report(failures: seq<string>, summary: seq<(string, Verdict)>, logs: map<string, string>,
                           cache: map<string, string>)

  // ---- what a proof depends on ----

  /** Strictly ascending, so sorted and without duplicates. */
  predicate Ascending(paths: seq<Path>) {
    paths == [] || ((|paths| > 1 ==> LexLess(paths[0], paths[1])) && Ascending(paths[1..]))
  }

  function InsertSorted(path: Path, sorted: seq<Path>): (r: seq<Path>)
    requires Ascending(sorted)
    ensures Ascending(r)
    ensures forall p :: p in r <==> p == path || p in sorted
    ensures r != [] && (r[0] == path || (sorted != [] && r[0] == sorted[0]))
  {
    if sorted == [] then [path]
    else if path == sorted[0] then sorted
    else if LexLess(path, sorted[0]) then
      assert ([path] + sorted)[1..] == sorted;
      [path] + sorted
    else
      var rest := InsertSorted(path, sorted[1..]);
      LexTotal(path, sorted[0]);
      assert forall p :: p in sorted <==> p == sorted[0] || p in sorted[1..];
      assert ([sorted[0]] + rest)[1..] == rest;
      [sorted[0]] + rest
  }

  /** `list(REMOVE_DUPLICATES)` and `list(SORT)`. */
  function SortUnique(paths: seq<Path>): (r: seq<Path>)
    ensures Ascending(r)
    ensures forall p :: p in r <==> p in paths
  {
    if paths == [] then [] else InsertSorted(paths[0], SortUnique(paths[1..]))
  }

  function HeadersUnder(fs: FileSystem, directories: seq<Path>): seq<Path> {
    if directories == [] then []
    else (if directories[0] in fs.headers then fs.headers[directories[0]] else []) + HeadersUnder(fs, directories[1..])
  }

  function InputsOf(fs: FileSystem, p: Proof): seq<Path> {
    p.inputs + SortUnique(HeadersUnder(fs, p.headerDirectories))
  }

  function TaskOf(fs: FileSystem, config: Config, p: Proof): Task {
    Task(p.command, p.timeout, p.directory, SnapshotOf(fs, config.sharedInputs), SnapshotOf(fs, InputsOf(fs, p)))
  }

  // ---- results and logs ----

  predicate IsBreak(c: char) {
    c == '\r' || c == '\n'
  }

  predicate LineAt(text: string, line: string, i: nat) {
    && i + |line| <= |text| && text[i..i + |line|] == line
    && (i == 0 || IsBreak(text[i - 1]))
    && (i + |line| == |text| || IsBreak(text[i + |line|]))
  }

  /** The text has the line: between line breaks, or at its ends. */
  predicate HasLine(text: string, line: string) {
    exists i :: 0 <= i <= |text| && LineAt(text, line, i)
  }

  const SUCCESS := "VERIFICATION SUCCESSFUL"
  const RESULT_ZERO := "\nResult: 0\n"

  function Transcript(o: Outcome): string {
    o.output + "\n" + o.error
  }

  predicate Passes(o: Outcome) {
    o.result == "0" && HasLine(Transcript(o), SUCCESS)
  }

  /** The elements of a CMake list. */
  function ListElements(list: string): seq<string>
    decreases |list|
  {
    match Until(list, ';')
    case None => if list == "" then [] else [list]
    case Some((first, rest)) => [first] + (if rest == "" then [""] else ListElements(rest))
  }

  function ShellQuoted(argument: string): string {
    if argument == "" then "" else (if argument[0] == '\'' then "'\\''" else [argument[0]]) + ShellQuoted(argument[1..])
  }

  function Display(arguments: seq<string>): string {
    if arguments == [] then "" else " '" + ShellQuoted(arguments[0]) + "'" + Display(arguments[1..])
  }

  function LogHeader(fingerprint: string, t: Task): string {
    "Fingerprint: " + fingerprint + "\nDirectory: " + t.directory + "\nCommand:" + Display(ListElements(t.command))
  }

  function LogText(fingerprint: string, t: Task, o: Outcome): string {
    LogHeader(fingerprint, t) + "\nResult: " + o.result + "\n" + Transcript(o)
  }

  /** The name of a cache file: the proof's name and the fingerprint. */
  function Key(name: string, fingerprint: string): string {
    name + "-" + fingerprint
  }

  /** The test a cached log must pass before it is reused. */
  predicate Reusable(text: string, fingerprint: string) {
    "Fingerprint: " + fingerprint + "\n" <= text && Contains(text, RESULT_ZERO) && HasLine(text, SUCCESS)
  }

  // ---- the gate ----

  /** The gate's treatment of one proof. */
  function GateProof(hash: string -> string, checker: Checker, fs: FileSystem, config: Config, caching: bool,
                     r: Report, p: Proof): Report {
    var t := TaskOf(fs, config, p);
    var fingerprint := if caching then Fingerprint(hash, t) else "";
    var key := Key(p.name, fingerprint);
    if caching && key in r.cache && Reusable(r.cache[key], fingerprint) then
      r.(summary := r.summary + [(p.name, Reused)],
         logs := r.logs[p.name := "Reused successful result; inputs unchanged.\n" + r.cache[key]])
    else
      var outcome := checker(t);
      var text := LogText(fingerprint, t, outcome);
      if Passes(outcome) then
        r.(summary := r.summary + [(p.name, Passed)], logs := r.logs[p.name := text],
           cache := if caching then r.cache[key := text] else r.cache)
      else
        r.(summary := r.summary + [(p.name, Failed)], logs := r.logs[p.name := text], failures := r.failures + [p.name])
  }

  function GateAll(hash: string -> string, checker: Checker, fs: FileSystem, config: Config, caching: bool,
                   cache: map<string, string>, proofs: seq<Proof>): Report
    decreases |proofs|
  {
    if proofs == [] then Report([], [], map[], cache)
    else
      GateProof(hash, checker, fs, config, caching,
                GateAll(hash, checker, fs, config, caching, cache, proofs[..|proofs| - 1]), proofs[|proofs| - 1])
  }

  /** A gate run. An empty manifest is an error. */
  method RunGate(hash: string -> string, checker: Checker, fs: FileSystem, config: Config, caching: bool,
                 cache: map<string, string>) returns (r: Report, ok: bool)
    ensures r == GateAll(hash, checker, fs, config, caching, cache, config.proofs)
    ensures ok <==> config.proofs != [] && r.failures == []
  {
    r := Report([], [], map[], cache);
    if config.proofs == [] {
      return r, false;
    }
    var sharedDigest := "";
    if caching {
      sharedDigest := HashInputs(hash, fs, config.sharedInputs);
    }
    assert config.proofs[..0] == [];
    for i := 0 to |config.proofs|
      invariant r == GateAll(hash, checker, fs, config, caching, cache, config.proofs[..i])
    {
      assert config.proofs[..i + 1][..i] == config.proofs[..i];
      r := ReuseOrRun(hash, checker, fs, config, caching, sharedDigest, r, config.proofs[i]);
    }
    assert config.proofs[..|config.proofs|] == config.proofs;
    ok := |r.failures| == 0;
  }

  /** The body of the loop: reuse a cached success, or execute the proof. */
  method ReuseOrRun(hash: string -> string, checker: Checker, fs: FileSystem, config: Config, caching: bool,
                    sharedDigest: string, before: Report, p: Proof) returns (r: Report)
    requires caching ==> sharedDigest == hash(PreImage(hash, SnapshotOf(fs, config.sharedInputs)))
    ensures r == GateProof(hash, checker, fs, config, caching, before, p)
  {
    ghost var t := TaskOf(fs, config, p);
    var fingerprint := "";
    if caching {
      var inputDigest := HashInputs(hash, fs, p.inputs + SortUnique(HeadersUnder(fs, p.headerDirectories)));
      fingerprint := FingerprintOf(hash, t, sharedDigest, inputDigest, p.command, p.timeout, p.directory);
      var cachedLog := Key(p.name, fingerprint);
      if cachedLog in before.cache && Reusable(before.cache[cachedLog], fingerprint) {
        r := before.(logs := before.logs[p.name := "Reused successful result; inputs unchanged.\n"
                                                   + before.cache[cachedLog]]);
        r := r.(summary := r.summary + [(p.name, Reused)]);
        return;
      }
    }
    r := RunProof(checker, fs, config, caching, before, p, fingerprint);
  }

  method FingerprintOf(hash: string -> string, ghost t: Task, sharedDigest: string, inputDigest: string,
                       command: string, timeout: string, directory: string) returns (fingerprint: string)
    requires t.command == command && t.timeout == timeout && t.directory == directory
    requires sharedDigest == hash(PreImage(hash, t.common)) && inputDigest == hash(PreImage(hash, t.own))
    ensures fingerprint == Fingerprint(hash, t)
  {
    var text := "v1;" + sharedDigest + ";" + inputDigest + ";" + (command + ";" + timeout + ";" + directory);
    assert text == FingerprintText(hash, t);
    fingerprint := hash(text);
  }

  /** The part of the loop that executes a proof. */
  method RunProof(checker: Checker, fs: FileSystem, config: Config, caching: bool, before: Report, p: Proof,
                  fingerprint: string) returns (r: Report)
    ensures var t := TaskOf(fs, config, p);
            var text := LogText(fingerprint, t, checker(t));
            r == if Passes(checker(t)) then
                   before.(summary := before.summary + [(p.name, Passed)], logs := before.logs[p.name := text],
                           cache := if caching then before.cache[Key(p.name, fingerprint) := text] else before.cache)
                 else
                   before.(summary := before.summary + [(p.name, Failed)], logs := before.logs[p.name := text],
                           failures := before.failures + [p.name])
  {
    var t := TaskOf(fs, config, p);
    var outcome := checker(t);
    r := before.(logs := before.logs[p.name := LogText(fingerprint, t, outcome)]);
    var verdict;
    if outcome.result != "0" || !HasLine(outcome.output + "\n" + outcome.error, SUCCESS) {
      r := r.(failures := r.failures + [p.name]);
      verdict := Failed;
    } else {
      verdict := Passed;
      if caching {
        r := r.(cache := r.cache[Key(p.name, fingerprint) := r.logs[p.name]]);
      }
    }
    r := r.(summary := r.summary + [(p.name, verdict)]);
  }

  lemma KeyDetermines(name: string, fingerprint: string, name': string, fingerprint': string)
    requires |fingerprint| == |fingerprint'| && Key(name, fingerprint) == Key(name', fingerprint')
    ensures name == name' && fingerprint == fingerprint'
  {
    var s := Key(name, fingerprint);
    assert s[..|name|] == name && s[|name| + 1..] == fingerprint;
    assert s[..|name'|] == name' && s[|name'| + 1..] == fingerprint';
  }

  // ---- reuse does happen ----

  lemma LineShifts(header: string, text: string, line: string)
    requires header != "" && IsBreak(header[|header| - 1]) && HasLine(text, line)
    ensures HasLine(header + text, line)
  {
    var i :| 0 <= i <= |text| && LineAt(text, line, i);
    var whole := header + text;
    var j := |header| + i;
    SliceShifts(header, text, i, |line|);
    assert i > 0 ==> whole[j - 1] == text[i - 1];
    assert i + |line| < |text| ==> whole[j + |line|] == text[i + |line|];
    assert LineAt(whole, line, j);
  }

  lemma SliceShifts(header: string, text: string, i: nat, n: nat)
    requires i + n <= |text|
    ensures (header + text)[|header| + i..|header| + i + n] == text[i..i + n]
  {
  }

  /** The log of a passing run passes the test for reuse. */
  lemma PassingLogIsReusable(fingerprint: string, t: Task, o: Outcome)
    requires Passes(o)
    ensures Reusable(LogText(fingerprint, t, o), fingerprint)
  {
    var front := LogHeader(fingerprint, t);
    HeaderStarts(fingerprint, t.directory, Display(ListElements(t.command)));
    ResultAfter(front, Transcript(o));
    ResultContained(front, Transcript(o));
  }

  lemma HeaderStarts(fingerprint: string, directory: string, display: string)
    ensures "Fingerprint: " + fingerprint + "\n"
         <= "Fingerprint: " + fingerprint + "\nDirectory: " + directory + "\nCommand:" + display
  {
    var start := "Fingerprint: " + fingerprint;
    assert "\nDirectory: " == "\n" + "Directory: ";
    Associate(start, "\n", "Directory: ");
  }

  lemma ResultAfter(front: string, transcript: string)
    ensures front + "\nResult: " + "0" + "\n" + transcript == front + RESULT_ZERO + transcript
  {
    assert "\nResult: " + "0" + "\n" == RESULT_ZERO;
    Associate(front, "\nResult: ", "0");
    Associate(front, "\nResult: " + "0", "\n");
  }

  lemma ResultContained(front: string, transcript: string)
    requires HasLine(transcript, SUCCESS)
    ensures Contains(front + RESULT_ZERO + transcript, RESULT_ZERO)
    ensures HasLine(front + RESULT_ZERO + transcript, SUCCESS)
  {
    assert (front + RESULT_ZERO + transcript)[|front|..] == RESULT_ZERO + transcript;
    assert OccursAt(front + RESULT_ZERO + transcript, RESULT_ZERO, |front|);
    LineShifts(front + RESULT_ZERO, transcript, SUCCESS);
  }

  /** The cache has a result for the name and the fingerprint, fit for reuse. */
  predicate HoldsResult(cache: map<string, string>, name: string, fingerprint: string) {
    Key(name, fingerprint) in cache && Reusable(cache[Key(name, fingerprint)], fingerprint)
  }

  /** The result of a proof, if it passes, is in the cache, fit for reuse. */
  predicate StoredOne(hash: string -> string, checker: Checker, fs: FileSystem, config: Config,
                      cache: map<string, string>, p: Proof) {
    Passes(checker(TaskOf(fs, config, p))) ==> HoldsResult(cache, p.name, Fingerprint(hash, TaskOf(fs, config, p)))
  }

  /** The results of all passing proofs are in the cache, fit for reuse. */
  ghost predicate Stored(hash: string -> string, checker: Checker, fs: FileSystem, config: Config,
                         cache: map<string, string>, proofs: seq<Proof>) {
    forall i :: 0 <= i < |proofs| ==> StoredOne(hash, checker, fs, config, cache, proofs[i])
  }

  lemma {:induction false} GateStores(hash: string -> string, checker: Checker, fs: FileSystem, config: Config,
                                      cache: map<string, string>, proofs: seq<Proof>)
    requires Digests(hash)
    ensures Stored(hash, checker, fs, config, GateAll(hash, checker, fs, config, true, cache, proofs).cache, proofs)
    decreases |proofs|
  {
    if proofs != [] {
      var init, last := proofs[..|proofs| - 1], proofs[|proofs| - 1];
      GateStores(hash, checker, fs, config, cache, init);
      OneMoreStored(hash, checker, fs, config, GateAll(hash, checker, fs, config, true, cache, init), proofs);
    }
  }

  lemma OneMoreStored(hash: string -> string, checker: Checker, fs: FileSystem, config: Config, before: Report,
                      proofs: seq<Proof>)
    requires Digests(hash) && proofs != []
    requires Stored(hash, checker, fs, config, before.cache, proofs[..|proofs| - 1])
    ensures Stored(hash, checker, fs, config,
                   GateProof(hash, checker, fs, config, true, before, proofs[|proofs| - 1]).cache, proofs)
  {
    var init, last := proofs[..|proofs| - 1], proofs[|proofs| - 1];
    var after := GateProof(hash, checker, fs, config, true, before, last);
    forall i | 0 <= i < |proofs| ensures StoredOne(hash, checker, fs, config, after.cache, proofs[i]) {
      if i < |init| {
        assert proofs[i] == init[i];
        assert StoredOne(hash, checker, fs, config, before.cache, init[i]);
        if Passes(checker(TaskOf(fs, config, init[i]))) {
          assert |Fingerprint(hash, TaskOf(fs, config, init[i]))| == 64;
          ResultStays(hash, checker, fs, config, before, last, init[i].name,
                      Fingerprint(hash, TaskOf(fs, config, init[i])));
        }
      } else {
        PassingOrNot(hash, TaskOf(fs, config, last), checker(TaskOf(fs, config, last)));
      }
    }
  }

  /** No proof takes the result of another away. */
  lemma ResultStays(hash: string -> string, checker: Checker, fs: FileSystem, config: Config, before: Report,
                    last: Proof, name: string, fingerprint: string)
    requires Digests(hash) && |fingerprint| == 64 && HoldsResult(before.cache, name, fingerprint)
    ensures HoldsResult(GateProof(hash, checker, fs, config, true, before, last).cache, name, fingerprint)
  {
    var t := TaskOf(fs, config, last);
    PassingOrNot(hash, t, checker(t));
    if Key(name, fingerprint) == Key(last.name, Fingerprint(hash, t)) {
      assert |Fingerprint(hash, t)| == 64;
      KeyDetermines(name, fingerprint, last.name, Fingerprint(hash, t));
    }
  }

  lemma {:induction false} ResultStaysAll(hash: string -> string, checker: Checker, fs: FileSystem, config: Config,
                                          cache: map<string, string>, proofs: seq<Proof>, name: string,
                                          fingerprint: string)
    requires Digests(hash) && |fingerprint| == 64 && HoldsResult(cache, name, fingerprint)
    ensures HoldsResult(GateAll(hash, checker, fs, config, true, cache, proofs).cache, name, fingerprint)
    decreases |proofs|
  {
    if proofs != [] {
      var init, last := proofs[..|proofs| - 1], proofs[|proofs| - 1];
      ResultStaysAll(hash, checker, fs, config, cache, init, name, fingerprint);
      ResultStays(hash, checker, fs, config, GateAll(hash, checker, fs, config, true, cache, init), last, name,
                  fingerprint);
    }
  }

  lemma PassingOrNot(hash: string -> string, t: Task, o: Outcome)
    ensures Passes(o) ==> Reusable(LogText(Fingerprint(hash, t), t, o), Fingerprint(hash, t))
  {
    if Passes(o) {
      PassingLogIsReusable(Fingerprint(hash, t), t, o);
    }
  }

  /** What a run over stored results must look like. */
  ghost predicate Reuses(checker: Checker, fs: FileSystem, config: Config, summary: seq<(string, Verdict)>,
                         proofs: seq<Proof>) {
    |summary| == |proofs|
    && forall i :: 0 <= i < |proofs| && Passes(checker(TaskOf(fs, config, proofs[i]))) ==>
         summary[i] == (proofs[i].name, Reused)
  }

  lemma StoredPrefix(hash: string -> string, checker: Checker, fs: FileSystem, config: Config,
                     cache: map<string, string>, proofs: seq<Proof>)
    requires Stored(hash, checker, fs, config, cache, proofs) && proofs != []
    ensures Stored(hash, checker, fs, config, cache, proofs[..|proofs| - 1])
  {
    var init := proofs[..|proofs| - 1];
    assert forall i :: 0 <= i < |init| ==> init[i] == proofs[i];
  }

  lemma ReusesOneMore(checker: Checker, fs: FileSystem, config: Config, summary: seq<(string, Verdict)>,
                      proofs: seq<Proof>, verdict: (string, Verdict))
    requires proofs != [] && Reuses(checker, fs, config, summary, proofs[..|proofs| - 1])
    requires Passes(checker(TaskOf(fs, config, proofs[|proofs| - 1]))) ==>
               verdict == (proofs[|proofs| - 1].name, Reused)
    ensures Reuses(checker, fs, config, summary + [verdict], proofs)
  {
    var init := proofs[..|proofs| - 1];
    assert forall i :: 0 <= i < |init| ==> init[i] == proofs[i];
  }

  lemma {:induction false} StoredIsReused(hash: string -> string, checker: Checker, fs: FileSystem, config: Config,
                                          cache: map<string, string>, proofs: seq<Proof>)
    requires Stored(hash, checker, fs, config, cache, proofs)
    ensures GateAll(hash, checker, fs, config, true, cache, proofs).cache == cache
    ensures Reuses(checker, fs, config, GateAll(hash, checker, fs, config, true, cache, proofs).summary, proofs)
    decreases |proofs|
  {
    if proofs != [] {
      var init, last := proofs[..|proofs| - 1], proofs[|proofs| - 1];
      StoredPrefix(hash, checker, fs, config, cache, proofs);
      StoredIsReused(hash, checker, fs, config, cache, init);
      var before := GateAll(hash, checker, fs, config, true, cache, init);
      var after := GateProof(hash, checker, fs, config, true, before, last);
      assert after.summary == before.summary + [after.summary[|before.summary|]];
      ReusesOneMore(checker, fs, config, before.summary, proofs, after.summary[|before.summary|]);
    }
  }

  /** Running the gate again without an edit reuses the result of every proof that passed, and
      leaves the cache as it is. */
  lemma RerunReuses(hash: string -> string, checker: Checker, fs: FileSystem, config: Config,
                    cache: map<string, string>)
    requires Digests(hash)
    ensures var first := GateAll(hash, checker, fs, config, true, cache, config.proofs);
            var second := GateAll(hash, checker, fs, config, true, first.cache, config.proofs);
            second.cache == first.cache && Reuses(checker, fs, config, second.summary, config.proofs)
  {
    GateStores(hash, checker, fs, config, cache, config.proofs);
    StoredIsReused(hash, checker, fs, config,
                   GateAll(hash, checker, fs, config, true, cache, config.proofs).cache, config.proofs);
  }
}
