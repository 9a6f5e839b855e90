/** The counting and colouring behind the coverage report. Resolving a file name to a production
    source (`locate`) and a source to its component (`component`) are parameters. */
module CoverageReport {
  import opened Wrappers

  datatype Status = Covered | Uncovered | Unknown

  /** A goal or a check at a source line. `isProperty` is the claim's kind. */
  datatype Claim = Claim(file: string, line: nat, isProperty: bool, status: Status)

  datatype ProofStatus = ProofPassed | ProofFailed | ProofUnknown

  /** A line of a proof log, as the report's patterns see it. */
  datatype LogLine =
    | LocationLine(file: string)
    | ResultLine(status: RawStatus, line: nat)
    | SummaryLine(failed: nat, total: nat, passed: nat)
    | OtherLine

  datatype RawStatus = PASSED | FAILED | UNKNOWN | UNREACHABLE

  datatype Coverage = Coverage(total: int, claims: seq<Claim>)

  datatype Run = Run(directory: string, proofDirectory: string, proofStatus: ProofStatus, proofLog: seq<LogLine>,
                     coverage: Option<Coverage>)

  /** `source_path`: the production source a file name stands for, if it is one. */
  type Locate = (string, string) -> Option<string>

  // ---- counting ----

  /** What is counted. */
  datatype Selection = CoveredOnes | FailedOnes | Branches | CoveredBranches | Checks | CoveredChecks

  predicate Selected(select: Selection, c: Claim) {
    match select
    case CoveredOnes => c.status.Covered?
    case FailedOnes => c.status.Uncovered?
    case Branches => !c.isProperty
    case CoveredBranches => !c.isProperty && c.status.Covered?
    case Checks => c.isProperty
    case CoveredChecks => c.isProperty && c.status.Covered?
  }

  function Count(claims: seq<Claim>, select: Selection): nat {
    if claims == [] then 0
    else Count(claims[..|claims| - 1], select) + if Selected(select, claims[|claims| - 1]) then 1 else 0
  }

  lemma CountSnoc(claims: seq<Claim>, last: Claim, select: Selection)
    ensures Count(claims + [last], select) == Count(claims, select) + if Selected(select, last) then 1 else 0
  {
    assert (claims + [last])[..|claims|] == claims;
  }

  lemma {:induction false} CountAppend(left: seq<Claim>, right: seq<Claim>, select: Selection)
    ensures Count(left + right, select) == Count(left, select) + Count(right, select)
    decreases |right|
  {
    if right == [] {
      assert left + right == left;
    } else {
      var init, last := right[..|right| - 1], right[|right| - 1];
      assert left + right == (left + init) + [last];
      CountSnoc(left + init, last, select);
      CountAppend(left, init, select);
    }
  }

  // ---- safety properties ----

  function StatusOf(raw: RawStatus): Status {
    match raw
    case PASSED => Covered
    case FAILED => Uncovered
    case _ => Unknown
  }

  /** The file named by the last location line. */
  function LastFile(lines: seq<LogLine>): Option<string> {
    if lines == [] then None
    else if lines[|lines| - 1].LocationLine? then Some(lines[|lines| - 1].file)
    else LastFile(lines[..|lines| - 1])
  }

  /** The located properties of a log: each result line, at the file named before it. */
  function Properties(lines: seq<LogLine>): seq<Claim> {
    if lines == [] then []
    else
      var init, last := lines[..|lines| - 1], lines[|lines| - 1];
      if last.ResultLine? && LastFile(init).Some? then
        Properties(init) + [Claim(LastFile(init).value, last.line, true, StatusOf(last.status))]
      else
        Properties(init)
  }

  method ParseProperties(log: seq<LogLine>) returns (properties: seq<Claim>)
    ensures properties == Properties(log)
  {
    properties := [];
    var filename: Option<string> := None;
    for i := 0 to |log|
      invariant filename == LastFile(log[..i])
      invariant properties == Properties(log[..i])
    {
      assert log[..i + 1][..i] == log[..i];
      match log[i] {
        case LocationLine(file) => filename := Some(file);
        case ResultLine(status, line) =>
          if filename.Some? {
            properties := properties + [Claim(filename.value, line, true, StatusOf(status))];
          }
        case _ =>
      }
    }
    assert log[..|log|] == log;
  }

  /** The first summary line of a log. */
  function FirstSummary(lines: seq<LogLine>): Option<(nat, nat, nat)> {
    if lines == [] then None
    else if lines[0].SummaryLine? then Some((lines[0].failed, lines[0].total, lines[0].passed))
    else FirstSummary(lines[1..])
  }

  /** The summary agrees with the located properties in every count. */
  predicate Complete(log: seq<LogLine>) {
    match FirstSummary(log)
    case None => false
    case Some((failed, total, passed)) =>
      && total == |Properties(log)| && failed + passed == total
      && Count(Properties(log), CoveredOnes) == passed && Count(Properties(log), FailedOnes) == failed
  }

  function Downgraded(c: Claim, trusted: bool): Claim {
    if c.status.Covered? && !trusted then c.(status := Unknown) else c
  }

  function DowngradedAll(claims: seq<Claim>, trusted: bool): seq<Claim> {
    seq(|claims|, i requires 0 <= i < |claims| => Downgraded(claims[i], trusted))
  }

  predicate Trusted(run: Run) {
    Complete(run.proofLog) && run.proofStatus.ProofPassed?
  }

  /** What a run shows about safety: its properties, the passed ones only if it can be trusted. */
  function Evidence(run: Run): seq<Claim> {
    DowngradedAll(Properties(run.proofLog), Trusted(run))
  }

  method PropertyEvidence(run: Run) returns (properties: seq<Claim>, complete: bool)
    ensures properties == Evidence(run) && complete == Complete(run.proofLog)
  {
    properties := ParseProperties(run.proofLog);
    complete := false;
    match FirstSummary(run.proofLog) {
      case None =>
      case Some((failed, total, passed)) =>
        complete := total == |properties| && failed + passed == total
                    && Count(properties, CoveredOnes) == passed && Count(properties, FailedOnes) == failed;
    }
    ghost var parsed := properties;
    for i := 0 to |properties|
      invariant |properties| == |parsed|
      invariant forall j :: 0 <= j < i ==> properties[j] == Downgraded(parsed[j], Trusted(run))
      invariant forall j :: i <= j < |parsed| ==> properties[j] == parsed[j]
    {
      if properties[i].status.Covered? && (!complete || !run.proofStatus.ProofPassed?) {
        properties := properties[i := properties[i].(status := Unknown)];
      }
    }
  }

  /** A complete inventory has no unknown entry. */
  lemma CompleteHasNoUnknown(log: seq<LogLine>)
    requires Complete(log)
    ensures forall i :: 0 <= i < |Properties(log)| ==> !Properties(log)[i].status.Unknown?
  {
    KnownAndUnknown(Properties(log));
  }

  lemma {:induction false} KnownAndUnknown(claims: seq<Claim>)
    ensures Count(claims, CoveredOnes) + Count(claims, FailedOnes) <= |claims|
    ensures Count(claims, CoveredOnes) + Count(claims, FailedOnes) == |claims| ==>
              forall i :: 0 <= i < |claims| ==> !claims[i].status.Unknown?
  {
    if claims != [] {
      KnownAndUnknown(claims[..|claims| - 1]);
    }
  }

  // ---- the colour of a line ----

  datatype Level = Blank | Low | Medium | High | Inconclusive

  function LineLevel(claims: seq<Claim>): Level {
    if claims == [] then Blank
    else if exists i :: 0 <= i < |claims| && claims[i].isProperty && claims[i].status.Uncovered? then Low
    else if exists i :: 0 <= i < |claims| && claims[i].status.Unknown? then Inconclusive
    else
      var passed := Count(claims, CoveredOnes);
      if passed == |claims| then High else if passed == 0 then Low else Medium
  }

  lemma {:induction false} AllCounted(claims: seq<Claim>, select: Selection)
    ensures Count(claims, select) <= |claims|
    ensures Count(claims, select) == |claims| <==> forall i :: 0 <= i < |claims| ==> Selected(select, claims[i])
  {
    if claims != [] {
      var init := claims[..|claims| - 1];
      AllCounted(init, select);
      if forall i :: 0 <= i < |init| ==> Selected(select, init[i]) {
        if Selected(select, claims[|claims| - 1]) {
          forall i | 0 <= i < |claims| ensures Selected(select, claims[i]) {
            assert i < |init| ==> claims[i] == init[i];
          }
        }
      } else {
        var i :| 0 <= i < |init| && !Selected(select, init[i]);
        assert !Selected(select, claims[i]);
      }
    }
  }

  /** Green exactly when there is something and all of it is covered; red whatever else is there
      when a safety property failed. */
  lemma LevelMeaning(claims: seq<Claim>)
    ensures LineLevel(claims) == High <==> claims != [] && forall i :: 0 <= i < |claims| ==> claims[i].status.Covered?
    ensures (exists i :: 0 <= i < |claims| && claims[i].isProperty && claims[i].status.Uncovered?) ==>
              LineLevel(claims) == Low
  {
    AllCounted(claims, CoveredOnes);
    if forall i :: 0 <= i < |claims| ==> claims[i].status.Covered? {
      assert forall i :: 0 <= i < |claims| ==> Selected(CoveredOnes, claims[i]);
    }
    if LineLevel(claims) == High {
      assert forall i :: 0 <= i < |claims| ==> Selected(CoveredOnes, claims[i]);
    }
  }

  // ---- the source map ----

  datatype Entry = Entry(run: Run, claim: Claim)

  /** A dictionary in insertion order. */
  type Lines = seq<(nat, seq<Entry>)>
  type Files = seq<(string, Lines)>

  function AddToLines(lines: Lines, line: nat, e: Entry): Lines {
    if lines == [] then [(line, [e])]
    else if lines[0].0 == line then [(line, lines[0].1 + [e])] + lines[1..]
    else [lines[0]] + AddToLines(lines[1..], line, e)
  }

  /** `mapped[file][line].append(entry)` */
  function AddToFiles(files: Files, file: string, line: nat, e: Entry): Files {
    if files == [] then [(file, [(line, [e])])]
    else if files[0].0 == file then [(file, AddToLines(files[0].1, line, e))] + files[1..]
    else [files[0]] + AddToFiles(files[1..], file, line, e)
  }

  function LineEntries(lines: Lines, line: nat): seq<Entry> {
    if lines == [] then [] else if lines[0].0 == line then lines[0].1 else LineEntries(lines[1..], line)
  }

  function EntriesAt(files: Files, file: string, line: nat): seq<Entry> {
    if files == [] then []
    else if files[0].0 == file then LineEntries(files[0].1, line)
    else EntriesAt(files[1..], file, line)
  }

  function ClaimsOf(entries: seq<Entry>): seq<Claim> {
    seq(|entries|, i requires 0 <= i < |entries| => entries[i].claim)
  }

  /** The claims of a file, and of all files. */
  function FileClaims(lines: Lines): seq<Claim> {
    if lines == [] then [] else ClaimsOf(lines[0].1) + FileClaims(lines[1..])
  }

  function AllClaims(files: Files): seq<Claim> {
    if files == [] then [] else FileClaims(files[0].1) + AllClaims(files[1..])
  }

  lemma {:induction false} LinesCount(lines: Lines, line: nat, e: Entry, select: Selection)
    ensures Count(FileClaims(AddToLines(lines, line, e)), select)
         == Count(FileClaims(lines), select) + if Selected(select, e.claim) then 1 else 0
  {
    if lines == [] {
      assert AddToLines(lines, line, e)[1..] == [];
      assert FileClaims(AddToLines(lines, line, e)) == [] + [e.claim];
      CountSnoc([], e.claim, select);
    } else if lines[0].0 == line {
      var rest := FileClaims(lines[1..]);
      assert ClaimsOf(lines[0].1 + [e]) == ClaimsOf(lines[0].1) + [e.claim];
      assert AddToLines(lines, line, e)[1..] == lines[1..];
      CountAppend(ClaimsOf(lines[0].1) + [e.claim], rest, select);
      CountSnoc(ClaimsOf(lines[0].1), e.claim, select);
      CountAppend(ClaimsOf(lines[0].1), rest, select);
    } else {
      LinesCount(lines[1..], line, e, select);
      assert AddToLines(lines, line, e)[1..] == AddToLines(lines[1..], line, e);
      CountAppend(ClaimsOf(lines[0].1), FileClaims(AddToLines(lines[1..], line, e)), select);
      CountAppend(ClaimsOf(lines[0].1), FileClaims(lines[1..]), select);
    }
  }

  lemma {:induction false} FilesCount(files: Files, file: string, line: nat, e: Entry, select: Selection)
    ensures Count(AllClaims(AddToFiles(files, file, line, e)), select)
         == Count(AllClaims(files), select) + if Selected(select, e.claim) then 1 else 0
  {
    var after := AddToFiles(files, file, line, e);
    if files == [] {
      LinesCount([], line, e, select);
      assert after[1..] == [];
      assert AllClaims(after) == FileClaims(AddToLines([], line, e)) + [];
      assert FileClaims([]) == [];
    } else if files[0].0 == file {
      LinesCount(files[0].1, line, e, select);
      assert after[1..] == files[1..];
      CountAppend(FileClaims(AddToLines(files[0].1, line, e)), AllClaims(files[1..]), select);
      CountAppend(FileClaims(files[0].1), AllClaims(files[1..]), select);
    } else {
      FilesCount(files[1..], file, line, e, select);
      assert after[1..] == AddToFiles(files[1..], file, line, e);
      CountAppend(FileClaims(files[0].1), AllClaims(AddToFiles(files[1..], file, line, e)), select);
      CountAppend(FileClaims(files[0].1), AllClaims(files[1..]), select);
    }
  }

  lemma {:induction false} LineEntriesAdd(lines: Lines, line: nat, e: Entry, at: nat)
    ensures LineEntries(AddToLines(lines, line, e), at) == LineEntries(lines, at) + if at == line then [e] else []
  {
    if lines != [] {
      LineEntriesAdd(lines[1..], line, e, at);
    }
  }

  lemma {:induction false} EntriesAdd(files: Files, file: string, line: nat, e: Entry, inFile: string, at: nat)
    ensures EntriesAt(AddToFiles(files, file, line, e), inFile, at)
         == EntriesAt(files, inFile, at) + if inFile == file && at == line then [e] else []
  {
    if files == [] {
      LineEntriesAdd([], line, e, at);
      assert AddToLines([], line, e) == [(line, [e])];
    } else {
      LineEntriesAdd(files[0].1, line, e, at);
      EntriesAdd(files[1..], file, line, e, inFile, at);
    }
  }

  // ---- rendering ----

  predicate LocationsComplete(run: Run) {
    run.coverage.Some? && |run.coverage.value.claims| == run.coverage.value.total
  }

  function Production(claims: seq<Claim>, directory: string, locate: Locate): seq<Claim> {
    if claims == [] then []
    else
      var last := claims[|claims| - 1];
      Production(claims[..|claims| - 1], directory, locate) + if locate(last.file, directory).Some? then [last] else []
  }

  /** The production goals a run contributes; none when its coverage is missing or its locations
      are incomplete. */
  function Goals(run: Run, locate: Locate): seq<Claim> {
    if LocationsComplete(run) then Production(run.coverage.value.claims, run.directory, locate) else []
  }

  /** All located goals of a run, production or not. */
  function LocatedGoals(run: Run): nat {
    if LocationsComplete(run) then |run.coverage.value.claims| else 0
  }

  function SumGoals(runs: seq<Run>, locate: Locate, select: Selection): nat {
    if runs == [] then 0
    else SumGoals(runs[..|runs| - 1], locate, select) + Count(Goals(runs[|runs| - 1], locate), select)
  }

  function SumAllGoals(runs: seq<Run>, locate: Locate): nat {
    if runs == [] then 0 else SumAllGoals(runs[..|runs| - 1], locate) + |Goals(runs[|runs| - 1], locate)|
  }

  function SumLocated(runs: seq<Run>): nat {
    if runs == [] then 0 else SumLocated(runs[..|runs| - 1]) + LocatedGoals(runs[|runs| - 1])
  }

  /** Adds claims of a run at the sources they resolve to, in order. */
  function Placed(files: Files, run: Run, claims: seq<Claim>, directory: string, locate: Locate): Files {
    if claims == [] then files
    else
      var before := Placed(files, run, claims[..|claims| - 1], directory, locate);
      var last := claims[|claims| - 1];
      match locate(last.file, directory)
      case None => before
      case Some(file) => AddToFiles(before, file, last.line, Entry(run, last))
  }

  function PlacedGoals(runs: seq<Run>, locate: Locate): Files {
    if runs == [] then []
    else
      var last := runs[|runs| - 1];
      Placed(PlacedGoals(runs[..|runs| - 1], locate), last, Goals(last, locate), last.directory, locate)
  }

  function PlacedEvidence(files: Files, runs: seq<Run>, locate: Locate): Files {
    if runs == [] then files
    else
      var last := runs[|runs| - 1];
      Placed(PlacedEvidence(files, runs[..|runs| - 1], locate), last, Evidence(last), last.proofDirectory, locate)
  }

  /** The source map of a report: goals of all runs first, then the safety evidence of all runs. */
  function SourceMap(runs: seq<Run>, locate: Locate): Files {
    PlacedEvidence(PlacedGoals(runs, locate), runs, locate)
  }

  /** A dictionary from component to claims. */
  type Components = seq<(string, seq<Claim>)>

  function AddToComponent(components: Components, name: string, claims: seq<Claim>): Components {
    if components == [] then [(name, claims)]
    else if components[0].0 == name then [(name, components[0].1 + claims)] + components[1..]
    else [components[0]] + AddToComponent(components[1..], name, claims)
  }

  function ComponentsOf(files: Files, component: string -> string): Components {
    if files == [] then []
    else
      var last := files[|files| - 1];
      AddToComponent(ComponentsOf(files[..|files| - 1], component), component(last.0), FileClaims(last.1))
  }

  function ComponentClaims(components: Components): seq<Claim> {
    if components == [] then [] else components[0].1 + ComponentClaims(components[1..])
  }

  datatype Totals = Totals(total: nat, covered: nat, excluded: nat, checks: nat, passedChecks: nat, files: Files,
                           components: Components)

  method PlaceAll(files: Files, run: Run, claims: seq<Claim>, directory: string, locate: Locate) returns (mapped: Files)
    ensures mapped == Placed(files, run, claims, directory, locate)
  {
    mapped := files;
    for i := 0 to |claims|
      invariant mapped == Placed(files, run, claims[..i], directory, locate)
    {
      assert claims[..i + 1][..i] == claims[..i];
      var filename := locate(claims[i].file, directory);
      if filename.Some? {
        mapped := AddToFiles(mapped, filename.value, claims[i].line, Entry(run, claims[i]));
      }
    }
    assert claims[..|claims|] == claims;
  }

  /** The totals over the runs' production goals, and the goals placed at their sources. */
  method CollectGoals(runs: seq<Run>, locate: Locate)
    returns (total: nat, covered: nat, excluded: nat, mapped: Files)
    ensures mapped == PlacedGoals(runs, locate)
    ensures total == SumAllGoals(runs, locate) && covered == SumGoals(runs, locate, CoveredOnes)
    ensures total + excluded == SumLocated(runs)
  {
    total, covered, excluded, mapped := 0, 0, 0, [];
    for i := 0 to |runs|
      invariant mapped == PlacedGoals(runs[..i], locate)
      invariant total == SumAllGoals(runs[..i], locate)
      invariant covered == SumGoals(runs[..i], locate, CoveredOnes)
      invariant total + excluded == SumLocated(runs[..i])
    {
      assert runs[..i + 1][..i] == runs[..i];
      var run := runs[i];
      if run.coverage.Some? && |run.coverage.value.claims| == run.coverage.value.total {
        var claims := run.coverage.value.claims;
        var production := Production(claims, run.directory, locate);
        ProductionIsFewer(claims, run.directory, locate);
        excluded := excluded + (|claims| - |production|);
        total := total + |production|;
        covered := covered + Count(production, CoveredOnes);
        mapped := PlaceAll(mapped, run, production, run.directory, locate);
      }
    }
    assert runs[..|runs|] == runs;
  }

  method CollectEvidence(files: Files, runs: seq<Run>, locate: Locate) returns (mapped: Files)
    ensures mapped == PlacedEvidence(files, runs, locate)
  {
    mapped := files;
    for i := 0 to |runs|
      invariant mapped == PlacedEvidence(files, runs[..i], locate)
    {
      assert runs[..i + 1][..i] == runs[..i];
      var properties, _ := PropertyEvidence(runs[i]);
      mapped := PlaceAll(mapped, runs[i], properties, runs[i].proofDirectory, locate);
    }
    assert runs[..|runs|] == runs;
  }

  method GroupComponents(files: Files, component: string -> string) returns (components: Components)
    ensures components == ComponentsOf(files, component)
  {
    components := [];
    for i := 0 to |files|
      invariant components == ComponentsOf(files[..i], component)
    {
      assert files[..i + 1][..i] == files[..i];
      components := AddToComponent(components, component(files[i].0), FileClaims(files[i].1));
    }
    assert files[..|files|] == files;
  }

  /** The counting parts of the report. */
  method Render(runs: seq<Run>, locate: Locate, component: string -> string) returns (t: Totals)
    ensures t.files == SourceMap(runs, locate)
    ensures t.total == SumAllGoals(runs, locate) && t.covered == SumGoals(runs, locate, CoveredOnes)
    ensures t.total + t.excluded == SumLocated(runs)
    ensures t.checks == Count(AllClaims(t.files), Checks) && t.passedChecks == Count(AllClaims(t.files), CoveredChecks)
    ensures t.components == ComponentsOf(t.files, component)
  {
    var total, covered, excluded, goals := CollectGoals(runs, locate);
    var mapped := CollectEvidence(goals, runs, locate);
    var components := GroupComponents(mapped, component);
    var properties := PropertiesIn(AllClaims(mapped));
    t := Totals(total, covered, excluded, |properties|, Count(properties, CoveredOnes), mapped, components);
  }

  method PropertiesIn(claims: seq<Claim>) returns (properties: seq<Claim>)
    ensures |properties| == Count(claims, Checks) && Count(properties, CoveredOnes) == Count(claims, CoveredChecks)
  {
    properties := [];
    for i := 0 to |claims|
      invariant |properties| == Count(claims[..i], Checks)
      invariant Count(properties, CoveredOnes) == Count(claims[..i], CoveredChecks)
    {
      assert claims[..i + 1][..i] == claims[..i];
      if claims[i].isProperty {
        CountSnoc(properties, claims[i], CoveredOnes);
        properties := properties + [claims[i]];
      }
    }
    assert claims[..|claims|] == claims;
  }

  lemma {:induction false} ProductionIsFewer(claims: seq<Claim>, directory: string, locate: Locate)
    ensures |Production(claims, directory, locate)| <= |claims|
  {
    if claims != [] {
      ProductionIsFewer(claims[..|claims| - 1], directory, locate);
    }
  }

  // ---- conservation ----

  /** Claims that all resolve are all placed, and nothing else is. */
  lemma {:induction false} PlacedCount(files: Files, run: Run, claims: seq<Claim>, directory: string, locate: Locate,
                                       select: Selection)
    ensures Count(AllClaims(Placed(files, run, claims, directory, locate)), select)
         == Count(AllClaims(files), select) + Count(Production(claims, directory, locate), select)
  {
    if claims != [] {
      var init, last := claims[..|claims| - 1], claims[|claims| - 1];
      PlacedCount(files, run, init, directory, locate, select);
      if locate(last.file, directory).Some? {
        FilesCount(Placed(files, run, init, directory, locate), locate(last.file, directory).value, last.line,
                   Entry(run, last), select);
        CountSnoc(Production(init, directory, locate), last, select);
      } else {
        assert Production(init, directory, locate) + [] == Production(init, directory, locate);
      }
    }
  }

  lemma {:induction false} ProductionTwice(claims: seq<Claim>, directory: string, locate: Locate)
    ensures Production(Production(claims, directory, locate), directory, locate)
         == Production(claims, directory, locate)
  {
    if claims != [] {
      var init, last := claims[..|claims| - 1], claims[|claims| - 1];
      var kept := Production(init, directory, locate);
      ProductionTwice(init, directory, locate);
      if locate(last.file, directory).Some? {
        assert (kept + [last])[..|kept|] == kept;
      } else {
        assert kept + [] == kept;
      }
    }
  }

  lemma {:induction false} GoalsCount(runs: seq<Run>, locate: Locate, select: Selection)
    ensures Count(AllClaims(PlacedGoals(runs, locate)), select) == SumGoals(runs, locate, select)
  {
    if runs != [] {
      var init, last := runs[..|runs| - 1], runs[|runs| - 1];
      GoalsCount(init, locate, select);
      PlacedCount(PlacedGoals(init, locate), last, Goals(last, locate), last.directory, locate, select);
      if LocationsComplete(last) {
        ProductionTwice(last.coverage.value.claims, last.directory, locate);
      }
    }
  }

  /** Safety evidence adds no branch goals. */
  lemma {:induction false} NoBranchesPlaced(claims: seq<Claim>, directory: string, locate: Locate, select: Selection)
    requires select == Branches || select == CoveredBranches
    requires forall i :: 0 <= i < |claims| ==> claims[i].isProperty
    ensures Count(Production(claims, directory, locate), select) == 0
  {
    if claims != [] {
      var init, last := claims[..|claims| - 1], claims[|claims| - 1];
      NoBranchesPlaced(init, directory, locate, select);
      assert last.isProperty;
      CountSnoc(Production(init, directory, locate), last, select);
      assert Production(init, directory, locate) + [] == Production(init, directory, locate);
    }
  }

  lemma {:induction false} PropertiesAreProperties(log: seq<LogLine>)
    ensures forall i :: 0 <= i < |Properties(log)| ==> Properties(log)[i].isProperty
  {
    if log != [] {
      PropertiesAreProperties(log[..|log| - 1]);
    }
  }

  /** The production part of the safety evidence, counted run by run. */
  function SumEvidence(runs: seq<Run>, locate: Locate, select: Selection): nat {
    if runs == [] then 0
    else
      var last := runs[|runs| - 1];
      SumEvidence(runs[..|runs| - 1], locate, select)
      + Count(Production(Evidence(last), last.proofDirectory, locate), select)
  }

  lemma {:induction false} EvidenceCount(files: Files, runs: seq<Run>, locate: Locate, select: Selection)
    ensures Count(AllClaims(PlacedEvidence(files, runs, locate)), select)
         == Count(AllClaims(files), select) + SumEvidence(runs, locate, select)
  {
    if runs != [] {
      var init, last := runs[..|runs| - 1], runs[|runs| - 1];
      EvidenceCount(files, init, locate, select);
      PlacedCount(PlacedEvidence(files, init, locate), last, Evidence(last), last.proofDirectory, locate, select);
    }
  }

  lemma {:induction false} NoBranchEvidence(runs: seq<Run>, locate: Locate, select: Selection)
    requires select == Branches || select == CoveredBranches
    ensures SumEvidence(runs, locate, select) == 0
  {
    if runs != [] {
      var last := runs[|runs| - 1];
      NoBranchEvidence(runs[..|runs| - 1], locate, select);
      PropertiesAreProperties(last.proofLog);
      NoBranchesPlaced(Evidence(last), last.proofDirectory, locate, select);
    }
  }

  lemma {:induction false} ComponentCount(components: Components, name: string, claims: seq<Claim>, select: Selection)
    ensures Count(ComponentClaims(AddToComponent(components, name, claims)), select)
         == Count(ComponentClaims(components), select) + Count(claims, select)
  {
    var after := AddToComponent(components, name, claims);
    if components == [] {
      assert after[1..] == [];
      assert claims + [] == claims;
      assert ComponentClaims(after) == claims;
    } else if components[0].0 == name {
      assert after[1..] == components[1..];
      CountAppend(components[0].1 + claims, ComponentClaims(components[1..]), select);
      CountAppend(components[0].1, claims, select);
      CountAppend(components[0].1, ComponentClaims(components[1..]), select);
    } else {
      ComponentCount(components[1..], name, claims, select);
      assert after[1..] == AddToComponent(components[1..], name, claims);
      CountAppend(components[0].1, ComponentClaims(AddToComponent(components[1..], name, claims)), select);
      CountAppend(components[0].1, ComponentClaims(components[1..]), select);
    }
  }

  lemma {:induction false} AllClaimsSnoc(files: Files, last: (string, Lines))
    ensures AllClaims(files + [last]) == AllClaims(files) + FileClaims(last.1)
  {
    if files == [] {
      assert files + [last] == [last];
      assert [last][1..] == [];
      assert FileClaims(last.1) + [] == FileClaims(last.1);
    } else {
      assert (files + [last])[1..] == files[1..] + [last];
      AllClaimsSnoc(files[1..], last);
    }
  }

  /** Grouping by component neither loses nor invents a claim. */
  lemma {:induction false} ComponentsCount(files: Files, component: string -> string, select: Selection)
    ensures Count(ComponentClaims(ComponentsOf(files, component)), select) == Count(AllClaims(files), select)
  {
    if files != [] {
      var init, last := files[..|files| - 1], files[|files| - 1];
      ComponentsCount(init, component, select);
      ComponentCount(ComponentsOf(init, component), component(last.0), FileClaims(last.1), select);
      assert init + [last] == files;
      AllClaimsSnoc(init, last);
      CountAppend(AllClaims(init), FileClaims(last.1), select);
    }
  }

  /** The claims recorded for a component, and the files that belong to it. */
  function ComponentAt(components: Components, name: string): seq<Claim> {
    if components == [] then []
    else if components[0].0 == name then components[0].1
    else ComponentAt(components[1..], name)
  }

  function FilesIn(files: Files, component: string -> string, name: string): Files {
    if files == [] then []
    else
      var last := files[|files| - 1];
      FilesIn(files[..|files| - 1], component, name) + if component(last.0) == name then [last] else []
  }

  lemma {:induction false} ComponentAtAdd(components: Components, added: string, claims: seq<Claim>, name: string)
    ensures ComponentAt(AddToComponent(components, added, claims), name)
         == ComponentAt(components, name) + if added == name then claims else []
  {
    if components != [] {
      ComponentAtAdd(components[1..], added, claims, name);
    }
  }

  /** A component's row counts the claims of its own files, all of them, in file order. */
  lemma {:induction false} ComponentRows(files: Files, component: string -> string, name: string)
    ensures ComponentAt(ComponentsOf(files, component), name) == AllClaims(FilesIn(files, component, name))
  {
    if files != [] {
      var init, last := files[..|files| - 1], files[|files| - 1];
      ComponentRows(init, component, name);
      ComponentAtAdd(ComponentsOf(init, component), component(last.0), FileClaims(last.1), name);
      AllClaimsSnoc(FilesIn(init, component, name), last);
      assert FilesIn(init, component, name) + [] == FilesIn(init, component, name);
    }
  }

  /** The sum of the counts of the files, and of the components. */
  function SumFiles(files: Files, select: Selection): nat {
    if files == [] then 0 else Count(FileClaims(files[0].1), select) + SumFiles(files[1..], select)
  }

  function SumComponents(components: Components, select: Selection): nat {
    if components == [] then 0 else Count(components[0].1, select) + SumComponents(components[1..], select)
  }

  lemma {:induction false} FilesAddUp(files: Files, select: Selection)
    ensures SumFiles(files, select) == Count(AllClaims(files), select)
  {
    if files != [] {
      FilesAddUp(files[1..], select);
      CountAppend(FileClaims(files[0].1), AllClaims(files[1..]), select);
    }
  }

  lemma {:induction false} ComponentsAddUp(components: Components, select: Selection)
    ensures SumComponents(components, select) == Count(ComponentClaims(components), select)
  {
    if components != [] {
      ComponentsAddUp(components[1..], select);
      CountAppend(components[0].1, ComponentClaims(components[1..]), select);
    }
  }

  /** Goals are branches or marked as properties, and so are reached goals. */
  lemma {:induction false} MarkedGoals(runs: seq<Run>, locate: Locate)
    ensures SumGoals(runs, locate, Branches) + SumGoals(runs, locate, Checks) == SumAllGoals(runs, locate)
    ensures SumGoals(runs, locate, CoveredBranches) + SumGoals(runs, locate, CoveredChecks)
         == SumGoals(runs, locate, CoveredOnes)
  {
    if runs != [] {
      MarkedGoals(runs[..|runs| - 1], locate);
      BranchesAndChecks(Goals(runs[|runs| - 1], locate));
    }
  }

  lemma {:induction false} BranchesAndChecks(claims: seq<Claim>)
    ensures Count(claims, Branches) + Count(claims, Checks) == |claims|
    ensures Count(claims, CoveredBranches) + Count(claims, CoveredChecks) == Count(claims, CoveredOnes)
  {
    if claims != [] {
      BranchesAndChecks(claims[..|claims| - 1]);
    }
  }

  lemma BranchesConserved(runs: seq<Run>, locate: Locate, component: string -> string, select: Selection)
    requires select == Branches || select == CoveredBranches
    ensures SumFiles(SourceMap(runs, locate), select) == SumGoals(runs, locate, select)
    ensures SumComponents(ComponentsOf(SourceMap(runs, locate), component), select) == SumGoals(runs, locate, select)
  {
    GoalsCount(runs, locate, select);
    EvidenceCount(PlacedGoals(runs, locate), runs, locate, select);
    NoBranchEvidence(runs, locate, select);
    ComponentsCount(SourceMap(runs, locate), component, select);
    FilesAddUp(SourceMap(runs, locate), select);
    ComponentsAddUp(ComponentsOf(SourceMap(runs, locate), component), select);
  }

  /** Conservation: the branch goals of the files add up to those of the runs, and so do those of the
      components; reached ones likewise. The sums are the reported total exactly when no coverage
      goal is marked as a property, and the reported covered total exactly when no reached one is;
      the report takes both for granted. */
  lemma {:induction false} GoalsConserved(runs: seq<Run>, locate: Locate, component: string -> string)
    ensures var files, components := SourceMap(runs, locate), ComponentsOf(SourceMap(runs, locate), component);
            && SumFiles(files, Branches) == SumComponents(components, Branches) == SumGoals(runs, locate, Branches)
            && SumFiles(files, CoveredBranches) == SumComponents(components, CoveredBranches)
               == SumGoals(runs, locate, CoveredBranches)
            && (SumFiles(files, Branches) == SumAllGoals(runs, locate) <==> SumGoals(runs, locate, Checks) == 0)
            && (SumFiles(files, CoveredBranches) == SumGoals(runs, locate, CoveredOnes)
                <==> SumGoals(runs, locate, CoveredChecks) == 0)
  {
    BranchesConserved(runs, locate, component, Branches);
    BranchesConserved(runs, locate, component, CoveredBranches);
    MarkedGoals(runs, locate);
  }

  /** A run with one goal, reached and marked as a property. */
  function MarkedRun(file: string, line: nat, directory: string): Run {
    Run(directory, directory, ProofPassed, [], Some(Coverage(1, [Claim(file, line, true, Covered)])))
  }

  /** A marked goal, at any line of any production source: the report's header counts it, and no row
      does. */
  lemma MarkedGoal(file: string, line: nat, directory: string, locate: Locate, component: string -> string)
    requires locate(file, directory).Some?
    ensures var runs := [MarkedRun(file, line, directory)];
            && SumAllGoals(runs, locate) == SumGoals(runs, locate, CoveredOnes) == 1
            && SumFiles(SourceMap(runs, locate), Branches) == 0
            && SumFiles(SourceMap(runs, locate), CoveredBranches) == 0
  {
    var runs, claim := [MarkedRun(file, line, directory)], Claim(file, line, true, Covered);
    assert runs[..0] == [];
    assert [claim][..0] == [];
    assert Production([claim], directory, locate) == [] + [claim];
    assert Goals(runs[0], locate) == [claim];
    CountSnoc([], claim, Branches);
    CountSnoc([], claim, CoveredBranches);
    CountSnoc([], claim, CoveredOnes);
    BranchesConserved(runs, locate, component, Branches);
    BranchesConserved(runs, locate, component, CoveredBranches);
  }

  /** Safety checks are conserved too: the checks of the source map, and of the components, are the
      located production properties of all runs, with the goals marked as properties. A passed one
      is counted exactly when its run can be trusted. */
  lemma {:induction false} ChecksConserved(runs: seq<Run>, locate: Locate, component: string -> string,
                                           select: Selection)
    requires select == Checks || select == CoveredChecks
    ensures var files := SourceMap(runs, locate);
            SumFiles(files, select) == SumComponents(ComponentsOf(files, component), select)
            == Count(AllClaims(files), select)
            == SumGoals(runs, locate, select) + SumLocatedChecks(runs, locate, select)
  {
    FilesAddUp(SourceMap(runs, locate), select);
    ComponentsAddUp(ComponentsOf(SourceMap(runs, locate), component), select);
    GoalsCount(runs, locate, select);
    EvidenceCount(PlacedGoals(runs, locate), runs, locate, select);
    ComponentsCount(SourceMap(runs, locate), component, select);
    TrustedChecks(runs, locate, select);
  }

  /** The production checks of the logs as they are, the passed ones of trusted runs only. */
  function SumLocatedChecks(runs: seq<Run>, locate: Locate, select: Selection): nat {
    if runs == [] then 0
    else
      var last := runs[|runs| - 1];
      SumLocatedChecks(runs[..|runs| - 1], locate, select)
      + if select.CoveredChecks? && !Trusted(last) then 0
        else Count(Production(Properties(last.proofLog), last.proofDirectory, locate), select)
  }

  lemma {:induction false} TrustedChecks(runs: seq<Run>, locate: Locate, select: Selection)
    requires select == Checks || select == CoveredChecks
    ensures SumEvidence(runs, locate, select) == SumLocatedChecks(runs, locate, select)
  {
    if runs != [] {
      var last := runs[|runs| - 1];
      TrustedChecks(runs[..|runs| - 1], locate, select);
      DowngradeCount(Properties(last.proofLog), Trusted(last), last.proofDirectory, locate, select);
    }
  }

  lemma {:induction false} DowngradeCount(claims: seq<Claim>, trusted: bool, directory: string, locate: Locate,
                                          select: Selection)
    requires select == Checks || select == CoveredChecks
    ensures Count(Production(DowngradedAll(claims, trusted), directory, locate), select)
         == if select.CoveredChecks? && !trusted then 0 else Count(Production(claims, directory, locate), select)
  {
    if claims != [] {
      var init, last := claims[..|claims| - 1], claims[|claims| - 1];
      DowngradeCount(init, trusted, directory, locate, select);
      DowngradedSnoc(init, last, trusted);
      assert init + [last] == claims;
      ProductionCountSnoc(init, last, directory, locate, select);
      ProductionCountSnoc(DowngradedAll(init, trusted), Downgraded(last, trusted), directory, locate, select);
    }
  }

  lemma DowngradedSnoc(claims: seq<Claim>, last: Claim, trusted: bool)
    ensures DowngradedAll(claims + [last], trusted) == DowngradedAll(claims, trusted) + [Downgraded(last, trusted)]
  {
  }

  lemma ProductionCountSnoc(claims: seq<Claim>, last: Claim, directory: string, locate: Locate, select: Selection)
    ensures Count(Production(claims + [last], directory, locate), select)
         == Count(Production(claims, directory, locate), select)
            + if locate(last.file, directory).Some? && Selected(select, last) then 1 else 0
  {
    assert (claims + [last])[..|claims|] == claims;
    var kept := Production(claims, directory, locate);
    if locate(last.file, directory).Some? {
      CountSnoc(kept, last, select);
    } else {
      assert kept + [] == kept;
    }
  }

  // ---- green lines ----

  /** The claims of a run that belong to a line. */
  function EntriesFor(run: Run, claims: seq<Claim>, directory: string, locate: Locate, file: string, line: nat)
    : seq<Entry>
  {
    if claims == [] then []
    else
      var last := claims[|claims| - 1];
      EntriesFor(run, claims[..|claims| - 1], directory, locate, file, line)
      + if locate(last.file, directory) == Some(file) && last.line == line then [Entry(run, last)] else []
  }

  function GoalsAt(runs: seq<Run>, locate: Locate, file: string, line: nat): seq<Entry> {
    if runs == [] then []
    else
      var last := runs[|runs| - 1];
      GoalsAt(runs[..|runs| - 1], locate, file, line)
      + EntriesFor(last, Goals(last, locate), last.directory, locate, file, line)
  }

  function EvidenceAt(runs: seq<Run>, locate: Locate, file: string, line: nat): seq<Entry> {
    if runs == [] then []
    else
      var last := runs[|runs| - 1];
      EvidenceAt(runs[..|runs| - 1], locate, file, line)
      + EntriesFor(last, Evidence(last), last.proofDirectory, locate, file, line)
  }

  lemma {:induction false} PlacedExactly(files: Files, run: Run, claims: seq<Claim>, directory: string, locate: Locate,
                                         file: string, line: nat)
    ensures EntriesAt(Placed(files, run, claims, directory, locate), file, line)
         == EntriesAt(files, file, line) + EntriesFor(run, claims, directory, locate, file, line)
  {
    if claims != [] {
      var init, last := claims[..|claims| - 1], claims[|claims| - 1];
      PlacedExactly(files, run, init, directory, locate, file, line);
      if locate(last.file, directory).Some? {
        EntriesAdd(Placed(files, run, init, directory, locate), locate(last.file, directory).value, last.line,
                   Entry(run, last), file, line);
      }
    }
  }

  lemma {:induction false} GoalsPlacedExactly(runs: seq<Run>, locate: Locate, file: string, line: nat)
    ensures EntriesAt(PlacedGoals(runs, locate), file, line) == GoalsAt(runs, locate, file, line)
  {
    if runs != [] {
      var init, last := runs[..|runs| - 1], runs[|runs| - 1];
      GoalsPlacedExactly(init, locate, file, line);
      PlacedExactly(PlacedGoals(init, locate), last, Goals(last, locate), last.directory, locate, file, line);
    }
  }

  lemma {:induction false} EvidencePlacedExactly(files: Files, runs: seq<Run>, locate: Locate, file: string, line: nat)
    ensures EntriesAt(PlacedEvidence(files, runs, locate), file, line)
         == EntriesAt(files, file, line) + EvidenceAt(runs, locate, file, line)
  {
    if runs != [] {
      var init, last := runs[..|runs| - 1], runs[|runs| - 1];
      EvidencePlacedExactly(files, init, locate, file, line);
      PlacedExactly(PlacedEvidence(files, init, locate), last, Evidence(last), last.proofDirectory, locate, file, line);
    }
  }

  /** What the report has at a line: the goals of all runs there, then their safety checks there,
      each in the order of the runs, and nothing else. */
  lemma SourceMapExact(runs: seq<Run>, locate: Locate, file: string, line: nat)
    ensures EntriesAt(SourceMap(runs, locate), file, line)
         == GoalsAt(runs, locate, file, line) + EvidenceAt(runs, locate, file, line)
  {
    GoalsPlacedExactly(runs, locate, file, line);
    EvidencePlacedExactly(PlacedGoals(runs, locate), runs, locate, file, line);
  }

  /** Check `k` of the run's log is located at the line. */
  predicate LocatedAt(run: Run, k: nat, locate: Locate, file: string, line: nat)
    requires k < |Properties(run.proofLog)|
  {
    && locate(Properties(run.proofLog)[k].file, run.proofDirectory) == Some(file)
    && Properties(run.proofLog)[k].line == line
  }

  lemma {:induction false} EntriesForContents(run: Run, claims: seq<Claim>, directory: string, locate: Locate,
                                              file: string, line: nat)
    ensures forall e :: e in EntriesFor(run, claims, directory, locate, file, line) <==>
              exists k :: 0 <= k < |claims| && e == Entry(run, claims[k])
                          && locate(claims[k].file, directory) == Some(file) && claims[k].line == line
  {
    if claims != [] {
      var init := claims[..|claims| - 1];
      EntriesForContents(run, init, directory, locate, file, line);
      assert forall k :: 0 <= k < |init| ==> init[k] == claims[k];
    }
  }

  /** The safety checks of a line: one for each check that some run located there. */
  lemma {:induction false} EvidenceContents(runs: seq<Run>, locate: Locate, file: string, line: nat)
    ensures forall e :: e in EvidenceAt(runs, locate, file, line) <==>
              exists r, k :: 0 <= r < |runs| && 0 <= k < |Evidence(runs[r])|
                             && e == Entry(runs[r], Evidence(runs[r])[k])
                             && LocatedAt(runs[r], k, locate, file, line)
  {
    if runs != [] {
      var init, last := runs[..|runs| - 1], runs[|runs| - 1];
      EvidenceContents(init, locate, file, line);
      EntriesForContents(last, Evidence(last), last.proofDirectory, locate, file, line);
      assert forall r :: 0 <= r < |init| ==> init[r] == runs[r];
    }
  }

  /** Every check that a run located at the line passed, in a run that is trusted: passed itself,
      with a complete inventory. */
  ghost predicate ChecksHold(runs: seq<Run>, locate: Locate, file: string, line: nat) {
    forall r, k :: 0 <= r < |runs| && 0 <= k < |Properties(runs[r].proofLog)|
                   && LocatedAt(runs[r], k, locate, file, line)
      ==> Properties(runs[r].proofLog)[k].status.Covered? && Trusted(runs[r])
  }

  lemma EvidenceCovered(runs: seq<Run>, locate: Locate, file: string, line: nat)
    ensures (forall e :: e in EvidenceAt(runs, locate, file, line) ==> e.claim.status.Covered?)
       <==> ChecksHold(runs, locate, file, line)
  {
    EvidenceContents(runs, locate, file, line);
    if forall e :: e in EvidenceAt(runs, locate, file, line) ==> e.claim.status.Covered? {
      forall r, k | 0 <= r < |runs| && 0 <= k < |Properties(runs[r].proofLog)|
                    && LocatedAt(runs[r], k, locate, file, line)
        ensures Properties(runs[r].proofLog)[k].status.Covered? && Trusted(runs[r])
      {
        assert Entry(runs[r], Evidence(runs[r])[k]) in EvidenceAt(runs, locate, file, line);
      }
    }
  }

  /** Green, exactly: a line is shown as high if and only if something is recorded for it, every
      branch goal there was reached, and every safety check there passed in a trusted run. */
  lemma HighExactly(runs: seq<Run>, locate: Locate, file: string, line: nat)
    ensures var goals, checks := GoalsAt(runs, locate, file, line), EvidenceAt(runs, locate, file, line);
            (LineLevel(ClaimsOf(EntriesAt(SourceMap(runs, locate), file, line))) == High)
            <==> && goals + checks != []
                 && (forall e :: e in goals ==> e.claim.status.Covered?)
                 && ChecksHold(runs, locate, file, line)
  {
    var goals, checks := GoalsAt(runs, locate, file, line), EvidenceAt(runs, locate, file, line);
    SourceMapExact(runs, locate, file, line);
    LevelMeaning(ClaimsOf(goals + checks));
    EvidenceCovered(runs, locate, file, line);
    AllCovered(goals + checks);
    assert forall e :: e in goals + checks <==> e in goals || e in checks;
  }

  lemma AllCovered(entries: seq<Entry>)
    ensures (forall i :: 0 <= i < |ClaimsOf(entries)| ==> ClaimsOf(entries)[i].status.Covered?)
       <==> (forall e :: e in entries ==> e.claim.status.Covered?)
  {
    if forall i :: 0 <= i < |ClaimsOf(entries)| ==> ClaimsOf(entries)[i].status.Covered? {
      forall e | e in entries ensures e.claim.status.Covered? {
        var i :| 0 <= i < |entries| && entries[i] == e;
        assert ClaimsOf(entries)[i] == e.claim;
      }
    }
  }

  /** Soundness of green: on a line shown as high no check failed, and every run with a check there
      passed, with an inventory that is complete and without unknown entries. */
  lemma HighLinesAreSafe(runs: seq<Run>, locate: Locate, file: string, line: nat, r: nat, k: nat)
    requires LineLevel(ClaimsOf(EntriesAt(SourceMap(runs, locate), file, line))) == High
    requires r < |runs| && k < |Properties(runs[r].proofLog)| && LocatedAt(runs[r], k, locate, file, line)
    ensures Properties(runs[r].proofLog)[k].status == Covered
    ensures runs[r].proofStatus.ProofPassed?
    ensures forall i :: 0 <= i < |Properties(runs[r].proofLog)| ==> !Properties(runs[r].proofLog)[i].status.Unknown?
  {
    HighExactly(runs, locate, file, line);
    CompleteHasNoUnknown(runs[r].proofLog);
  }
}
