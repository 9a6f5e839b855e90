/** The proof gate over time: what its cache is worth after any history of edits, runs and damage,
    and exactly when the cached gate agrees with always running every proof. */
module GateHistories {
  import opened Decimal
  import opened Fingerprints
  import opened ProofGate
  import opened Text
  import opened Wrappers

  /** A task under the name of its proof. The cache keeps results by both. */
  type Named = (string, Task)

  function NamedOf(fs: FileSystem, config: Config, proofs: seq<Proof>): set<Named> {
    set i | 0 <= i < |proofs| :: (proofs[i].name, TaskOf(fs, config, proofs[i]))
  }

  lemma NamedAt(fs: FileSystem, config: Config, proofs: seq<Proof>, i: nat)
    requires i < |proofs|
    ensures (proofs[i].name, TaskOf(fs, config, proofs[i])) in NamedOf(fs, config, proofs)
  {
  }

  lemma NamedOfPrefix(fs: FileSystem, config: Config, proofs: seq<Proof>, n: nat)
    requires n <= |proofs|
    ensures NamedOf(fs, config, proofs[..n]) <= NamedOf(fs, config, proofs)
  {
    var front := proofs[..n];
    forall x | x in NamedOf(fs, config, front) ensures x in NamedOf(fs, config, proofs) {
      var i :| 0 <= i < |front| && x == (front[i].name, TaskOf(fs, config, front[i]));
      NamedAt(fs, config, proofs, i);
    }
  }

  lemma NamedSnoc(fs: FileSystem, config: Config, proofs: seq<Proof>)
    requires proofs != []
    ensures var last := proofs[|proofs| - 1];
            NamedOf(fs, config, proofs)
            == NamedOf(fs, config, proofs[..|proofs| - 1]) + {(last.name, TaskOf(fs, config, last))}
  {
    var init, last := proofs[..|proofs| - 1], proofs[|proofs| - 1];
    NamedOfPrefix(fs, config, proofs, |proofs| - 1);
    NamedAt(fs, config, proofs, |proofs| - 1);
    forall x | x in NamedOf(fs, config, proofs)
      ensures x in NamedOf(fs, config, init) || x == (last.name, TaskOf(fs, config, last))
    {
      var i :| 0 <= i < |proofs| && x == (proofs[i].name, TaskOf(fs, config, proofs[i]));
      if i < |init| {
        NamedAt(fs, config, init, i);
      }
    }
  }

  /** What can happen over time: the files change, the gate runs, cache files are lost, or are
      overwritten by something that is not a successful result. */
  datatype Event = Edit(fs: FileSystem) | RunAll(config: Config) | Lose(key: string) | Damage(key: string, text: string)

  predicate NotAResult(text: string) {
    !Contains(text, RESULT_ZERO) || !HasLine(text, SUCCESS)
  }

  predicate LegalHistory(events: seq<Event>) {
    forall i :: 0 <= i < |events| && events[i].Damage? ==> NotAResult(events[i].text)
  }

  /** No cache file is lost or damaged. */
  predicate NoLosses(events: seq<Event>) {
    forall i :: 0 <= i < |events| ==> events[i].Edit? || events[i].RunAll?
  }

  /** All that a history runs. */
  function NamedIn(fs: FileSystem, events: seq<Event>): set<Named>
    decreases |events|
  {
    if events == [] then {}
    else match events[0]
      case Edit(fs') => NamedIn(fs', events[1..])
      case RunAll(config) => NamedOf(fs, config, config.proofs) + NamedIn(fs, events[1..])
      case _ => NamedIn(fs, events[1..])
  }

  /** What the runs of a history report: the failed proofs, in order, and the verdict. */
  function Reports(hash: string -> string, checker: Checker, caching: bool, fs: FileSystem, cache: map<string, string>,
                   events: seq<Event>): seq<(seq<string>, bool)>
    decreases |events|
  {
    if events == [] then []
    else match events[0]
      case Edit(fs') => Reports(hash, checker, caching, fs', cache, events[1..])
      case RunAll(config) =>
        var r := GateAll(hash, checker, fs, config, caching, cache, config.proofs);
        [(r.failures, config.proofs != [] && r.failures == [])]
        + Reports(hash, checker, caching, fs, r.cache, events[1..])
      case Lose(key) => Reports(hash, checker, caching, fs, cache - {key}, events[1..])
      case Damage(key, text) => Reports(hash, checker, caching, fs, cache[key := text], events[1..])
  }

  /** The cache that a history leaves. */
  function CacheAfter(hash: string -> string, checker: Checker, fs: FileSystem, cache: map<string, string>,
                      events: seq<Event>): map<string, string>
    decreases |events|
  {
    if events == [] then cache
    else match events[0]
      case Edit(fs') => CacheAfter(hash, checker, fs', cache, events[1..])
      case RunAll(config) =>
        CacheAfter(hash, checker, fs, GateAll(hash, checker, fs, config, true, cache, config.proofs).cache, events[1..])
      case Lose(key) => CacheAfter(hash, checker, fs, cache - {key}, events[1..])
      case Damage(key, text) => CacheAfter(hash, checker, fs, cache[key := text], events[1..])
  }

  // ---- where entries come from ----

  /** Every cache entry fit for reuse came from a passing run of a task with its fingerprint, under
      the name that the entry is for. */
  ghost predicate CacheSound(hash: string -> string, checker: Checker, cache: map<string, string>, named: set<Named>) {
    forall name: string, fingerprint: string ::
      |fingerprint| == 64 && HoldsResult(cache, name, fingerprint)
      ==> exists t :: (name, t) in named && Fingerprint(hash, t) == fingerprint && Passes(checker(t))
  }

  lemma StoringKeepsSound(hash: string -> string, checker: Checker, cache: map<string, string>, named: set<Named>,
                          name: string, t: Task, text: string)
    requires Digests(hash) && CacheSound(hash, checker, cache, named) && (name, t) in named && Passes(checker(t))
    ensures CacheSound(hash, checker, cache[Key(name, Fingerprint(hash, t)) := text], named)
  {
    var after := cache[Key(name, Fingerprint(hash, t)) := text];
    forall n: string, f: string | |f| == 64 && HoldsResult(after, n, f)
      ensures exists u :: (n, u) in named && Fingerprint(hash, u) == f && Passes(checker(u))
    {
      if Key(n, f) == Key(name, Fingerprint(hash, t)) {
        assert |Fingerprint(hash, t)| == 64;
        KeyDetermines(n, f, name, Fingerprint(hash, t));
      } else {
        assert HoldsResult(cache, n, f);
      }
    }
  }

  lemma ProofKeepsSound(hash: string -> string, checker: Checker, fs: FileSystem, config: Config, r: Report, p: Proof,
                        named: set<Named>)
    requires Digests(hash) && CacheSound(hash, checker, r.cache, named) && (p.name, TaskOf(fs, config, p)) in named
    ensures CacheSound(hash, checker, GateProof(hash, checker, fs, config, true, r, p).cache, named)
  {
    var t := TaskOf(fs, config, p);
    if Passes(checker(t)) {
      StoringKeepsSound(hash, checker, r.cache, named, p.name, t, LogText(Fingerprint(hash, t), t, checker(t)));
    }
  }

  lemma {:induction false} RunKeepsSound(hash: string -> string, checker: Checker, fs: FileSystem, config: Config,
                                         cache: map<string, string>, proofs: seq<Proof>, named: set<Named>)
    requires Digests(hash) && CacheSound(hash, checker, cache, named) && NamedOf(fs, config, proofs) <= named
    ensures CacheSound(hash, checker, GateAll(hash, checker, fs, config, true, cache, proofs).cache, named)
    decreases |proofs|
  {
    if proofs != [] {
      var init, last := proofs[..|proofs| - 1], proofs[|proofs| - 1];
      NamedSnoc(fs, config, proofs);
      RunKeepsSound(hash, checker, fs, config, cache, init, named);
      ProofKeepsSound(hash, checker, fs, config, GateAll(hash, checker, fs, config, true, cache, init), last, named);
    }
  }

  lemma DamageKeepsSound(hash: string -> string, checker: Checker, cache: map<string, string>, named: set<Named>,
                         key: string, text: string)
    requires CacheSound(hash, checker, cache, named) && NotAResult(text)
    ensures CacheSound(hash, checker, cache[key := text], named)
    ensures CacheSound(hash, checker, cache - {key}, named)
  {
    var damaged, lost := cache[key := text], cache - {key};
    forall n: string, f: string | |f| == 64 && HoldsResult(damaged, n, f)
      ensures exists t :: (n, t) in named && Fingerprint(hash, t) == f && Passes(checker(t))
    {
      assert !Reusable(text, f);
      assert HoldsResult(cache, n, f);
    }
    forall n: string, f: string | |f| == 64 && HoldsResult(lost, n, f)
      ensures exists t :: (n, t) in named && Fingerprint(hash, t) == f && Passes(checker(t))
    {
      assert HoldsResult(cache, n, f);
    }
  }

  /** Over any history every entry fit for reuse goes back to a passing run, within that history, of
      a task with that fingerprint, under the same name. Nothing is asked of the digest but its form. */
  lemma {:induction false} EntriesComeFromPasses(hash: string -> string, checker: Checker, fs: FileSystem,
                                                 cache: map<string, string>, events: seq<Event>, named: set<Named>)
    requires Digests(hash) && CacheSound(hash, checker, cache, named)
    requires NamedIn(fs, events) <= named && LegalHistory(events)
    ensures CacheSound(hash, checker, CacheAfter(hash, checker, fs, cache, events), named)
    decreases |events|
  {
    if events != [] {
      var rest := events[1..];
      assert LegalHistory(rest);
      match events[0]
      case Edit(fs') => EntriesComeFromPasses(hash, checker, fs', cache, rest, named);
      case RunAll(config) =>
        RunKeepsSound(hash, checker, fs, config, cache, config.proofs, named);
        EntriesComeFromPasses(hash, checker, fs, GateAll(hash, checker, fs, config, true, cache, config.proofs).cache,
                              rest, named);
      case Lose(key) =>
        DamageKeepsSound(hash, checker, cache, named, key, "");
        EntriesComeFromPasses(hash, checker, fs, cache - {key}, rest, named);
      case Damage(key, text) =>
        DamageKeepsSound(hash, checker, cache, named, key, text);
        EntriesComeFromPasses(hash, checker, fs, cache[key := text], rest, named);
    }
  }

  // ---- agreement ----

  /** All that the tasks digest is in `texts`, and they are well formed. */
  ghost predicate WithinReach(hash: string -> string, named: set<Named>, texts: set<string>) {
    forall n: string, t: Task :: (n, t) in named ==> GoodTask(t) && Digested(hash, t) <= texts
  }

  /** No two tasks under one name can be confused by the fingerprint. */
  ghost predicate NoConfusion(named: set<Named>) {
    forall n: string, t: Task, u: Task :: (n, t) in named && (n, u) in named ==> !Confusable(t, u)
  }

  /** What agreement needs of the tasks. */
  ghost predicate Covered(hash: string -> string, named: set<Named>, texts: set<string>) {
    WithinReach(hash, named, texts) && NoConfusion(named)
  }

  lemma ReusedMeansPassing(hash: string -> string, checker: Checker, cache: map<string, string>, named: set<Named>,
                           texts: set<string>, name: string, t: Task)
    requires Digests(hash) && CollisionFree(hash, texts) && Covered(hash, named, texts) && (name, t) in named
    requires CacheSound(hash, checker, cache, named) && HoldsResult(cache, name, Fingerprint(hash, t))
    ensures Passes(checker(t))
  {
    assert |Fingerprint(hash, t)| == 64;
    assert Key(name, Fingerprint(hash, t)) in cache;
    var u :| (name, u) in named && Fingerprint(hash, u) == Fingerprint(hash, t) && Passes(checker(u));
    FingerprintExact(hash, u, t, texts);
  }

  /** The failures a gate must report, said without any cache: the proofs whose checks do not pass. */
  function FailingProofs(checker: Checker, fs: FileSystem, config: Config, proofs: seq<Proof>): seq<string> {
    if proofs == [] then []
    else
      var last := proofs[|proofs| - 1];
      FailingProofs(checker, fs, config, proofs[..|proofs| - 1])
      + if Passes(checker(TaskOf(fs, config, last))) then [] else [last.name]
  }

  lemma {:induction false} UncachedReportsFailing(hash: string -> string, checker: Checker, fs: FileSystem,
                                                  config: Config, cache: map<string, string>, proofs: seq<Proof>)
    ensures GateAll(hash, checker, fs, config, false, cache, proofs).failures
         == FailingProofs(checker, fs, config, proofs)
    ensures GateAll(hash, checker, fs, config, false, cache, proofs).cache == cache
    decreases |proofs|
  {
    if proofs != [] {
      UncachedReportsFailing(hash, checker, fs, config, cache, proofs[..|proofs| - 1]);
    }
  }

  /** One proof: the cached gate reports a failure exactly when the check does not pass. */
  lemma CachedProofAgrees(hash: string -> string, checker: Checker, fs: FileSystem, config: Config, r: Report, p: Proof,
                          named: set<Named>, texts: set<string>)
    requires Digests(hash) && CollisionFree(hash, texts) && Covered(hash, named, texts)
    requires (p.name, TaskOf(fs, config, p)) in named && CacheSound(hash, checker, r.cache, named)
    ensures GateProof(hash, checker, fs, config, true, r, p).failures
         == r.failures + if Passes(checker(TaskOf(fs, config, p))) then [] else [p.name]
  {
    var t := TaskOf(fs, config, p);
    if HoldsResult(r.cache, p.name, Fingerprint(hash, t)) {
      ReusedMeansPassing(hash, checker, r.cache, named, texts, p.name, t);
    }
  }

  lemma {:induction false} CachedReportsFailing(hash: string -> string, checker: Checker, fs: FileSystem,
                                                config: Config, cache: map<string, string>, proofs: seq<Proof>,
                                                named: set<Named>, texts: set<string>)
    requires Digests(hash) && CollisionFree(hash, texts) && Covered(hash, named, texts)
    requires NamedOf(fs, config, proofs) <= named && CacheSound(hash, checker, cache, named)
    ensures GateAll(hash, checker, fs, config, true, cache, proofs).failures
         == FailingProofs(checker, fs, config, proofs)
    decreases |proofs|
  {
    if proofs != [] {
      var init, last := proofs[..|proofs| - 1], proofs[|proofs| - 1];
      NamedSnoc(fs, config, proofs);
      CachedReportsFailing(hash, checker, fs, config, cache, init, named, texts);
      RunKeepsSound(hash, checker, fs, config, cache, init, named);
      CachedProofAgrees(hash, checker, fs, config, GateAll(hash, checker, fs, config, true, cache, init), last,
                        named, texts);
    }
  }

  /** The cached gate agrees with always running every proof: over any history of edits, runs,
      losses and damage, every run reports the same failed proofs and the same verdict, provided
      no two of the texts digested have one digest, and no two tasks of one name are confusable. */
  lemma {:induction false} CacheAgrees(hash: string -> string, checker: Checker, fs: FileSystem,
                                       cache: map<string, string>, plain: map<string, string>, events: seq<Event>,
                                       named: set<Named>, texts: set<string>)
    requires Digests(hash) && CollisionFree(hash, texts) && Covered(hash, named, texts)
    requires NamedIn(fs, events) <= named && LegalHistory(events)
    requires CacheSound(hash, checker, cache, named)
    ensures Reports(hash, checker, true, fs, cache, events) == Reports(hash, checker, false, fs, plain, events)
    decreases |events|
  {
    if events != [] {
      var rest := events[1..];
      assert LegalHistory(rest);
      match events[0]
      case Edit(fs') =>
        CacheAgrees(hash, checker, fs', cache, plain, rest, named, texts);
      case RunAll(config) =>
        CachedReportsFailing(hash, checker, fs, config, cache, config.proofs, named, texts);
        UncachedReportsFailing(hash, checker, fs, config, plain, config.proofs);
        RunKeepsSound(hash, checker, fs, config, cache, config.proofs, named);
        CacheAgrees(hash, checker, fs, GateAll(hash, checker, fs, config, true, cache, config.proofs).cache, plain,
                    rest, named, texts);
      case Lose(key) =>
        DamageKeepsSound(hash, checker, cache, named, key, "");
        CacheAgrees(hash, checker, fs, cache - {key}, plain - {key}, rest, named, texts);
      case Damage(key, text) =>
        DamageKeepsSound(hash, checker, cache, named, key, text);
        CacheAgrees(hash, checker, fs, cache[key := text], plain[key := text], rest, named, texts);
    }
  }

  /** The same from an empty cache. */
  lemma CachedGateAgrees(hash: string -> string, checker: Checker, fs: FileSystem, events: seq<Event>,
                         texts: set<string>)
    requires Digests(hash) && CollisionFree(hash, texts)
    requires Covered(hash, NamedIn(fs, events), texts) && LegalHistory(events)
    ensures Reports(hash, checker, true, fs, map[], events) == Reports(hash, checker, false, fs, map[], events)
  {
    CacheAgrees(hash, checker, fs, map[], map[], events, NamedIn(fs, events), texts);
  }

  // ---- registered proofs ----

  predicate IsNameChar(c: char) {
    'A' <= c <= 'Z' || 'a' <= c <= 'z' || '0' <= c <= '9' || c == '_' || c == '-'
  }

  const LISTS_FILE := "/CMakeLists.txt"

  /** What registration guarantees of a proof: its name, its timeout, and that its inputs start from
      the list file of its directory, which reaches the gate as the elements of a list. */
  predicate RegisteredProof(p: Proof) {
    && p.name != "" && (forall i :: 0 <= i < |p.name| ==> IsNameChar(p.name[i]))
    && IsCount(p.timeout)
    && forall e :: e in ListElements(p.directory + LISTS_FILE) && e != "" ==> e in p.inputs
  }

  predicate RegisteredHistory(events: seq<Event>) {
    forall i, j :: 0 <= i < |events| && events[i].RunAll? && 0 <= j < |events[i].config.proofs| ==>
      RegisteredProof(events[i].config.proofs[j])
  }

  /** The same, of a task. */
  ghost predicate RegisteredTask(t: Task) {
    && IsCount(t.timeout)
    && forall e :: e in ListElements(t.directory + LISTS_FILE) && e != "" ==>
         exists i :: 0 <= i < |t.own| && t.own[i].path == e
  }

  lemma {:induction false} SnapshotPaths(fs: FileSystem, inputs: seq<Path>)
    ensures |SnapshotOf(fs, inputs)| == |inputs|
    ensures forall i :: 0 <= i < |inputs| ==> SnapshotOf(fs, inputs)[i].path == inputs[i]
    decreases |inputs|
  {
    if inputs != [] {
      SnapshotPaths(fs, inputs[..|inputs| - 1]);
    }
  }

  lemma RegisteredGivesTask(fs: FileSystem, config: Config, p: Proof)
    requires RegisteredProof(p)
    ensures RegisteredTask(TaskOf(fs, config, p))
  {
    var t, inputs := TaskOf(fs, config, p), InputsOf(fs, p);
    SnapshotPaths(fs, inputs);
    forall e | e in ListElements(t.directory + LISTS_FILE) && e != ""
      ensures exists i :: 0 <= i < |t.own| && t.own[i].path == e
    {
      assert e in p.inputs;
      var i :| 0 <= i < |p.inputs| && p.inputs[i] == e;
      assert inputs[i] == e;
      assert t.own[i].path == e;
    }
  }

  /** A piece between semicolons is an element of the list. */
  lemma {:induction false} PieceListed(front: string, piece: string, rest: string)
    requires front == "" || front[|front| - 1] == ';'
    requires ';' !in piece
    ensures piece in ListElements(front + piece + [';'] + rest)
    decreases |front|
  {
    if front == "" {
      assert front + piece == piece;
      FirstElement(piece, rest);
    } else {
      UntilPresent(front, ';');
      var (first, after) := Until(front, ';').value;
      assert after != "" ==> after[|after| - 1] == front[|front| - 1];
      PieceListed(after, piece, rest);
      var tail := after + piece + [';'] + rest;
      Regroup(first + [';'], after, piece, [';'], rest);
      FirstElement(first, tail);
    }
  }

  lemma Regroup(a: string, b: string, c: string, d: string, e: string)
    ensures a + b + c + d + e == a + (b + c + d + e)
  {
    Associate(a, b, c);
    Associate(a, b + c, d);
    Associate(a, b + c + d, e);
  }

  lemma FirstElement(first: string, rest: string)
    requires ';' !in first
    ensures first in ListElements(first + [';'] + rest)
    ensures forall e :: rest != "" && e in ListElements(rest) ==> e in ListElements(first + [';'] + rest)
  {
    UntilConcat(first, ';', rest);
  }

  lemma {:induction false} UntilPresent(s: string, c: char)
    requires c in s
    ensures Until(s, c).Some?
  {
    if s[0] != c {
      UntilPresent(s[1..], c);
    }
  }

  /** In two settings with one text the longer directory has the other timeout as a piece. */
  lemma TimeoutInDirectory(a: Task, b: Task) returns (front: string)
    requires Settings(a) == Settings(b) && |a.directory| < |b.directory| && ';' !in a.timeout
    ensures front == "" || front[|front| - 1] == ';'
    ensures b.directory == front + a.timeout + [';'] + a.directory
  {
    var x, y := a.command + [';'] + a.timeout, b.command + [';'] + b.timeout;
    var s := Settings(a);
    assert s == x + [';'] + a.directory && s == y + [';'] + b.directory;
    var k := |b.directory| - |a.directory| - 1;
    var left := b.directory[..k];
    assert s[|y| + 1..] == b.directory && s[|x| + 1..] == a.directory;
    assert b.directory == left + [';'] + a.directory by {
      assert b.directory[k] == s[|x|] == ';';
      assert b.directory[k + 1..] == a.directory;
    }
    assert x == y + [';'] + left by {
      assert s[..|x|] == x;
      assert s[..|x|] == y + [';'] + left;
    }
    front := SuffixAfter(a.command, a.timeout, y, left);
  }

  lemma SuffixAfter(c: string, t: string, y: string, left: string) returns (front: string)
    requires c + [';'] + t == y + [';'] + left && ';' !in t
    ensures left == front + t && (front == "" || front[|front| - 1] == ';')
  {
    var x := c + [';'] + t;
    if |left| < |t| {
      SeparatorInside(y, left, c, t, ';');
    }
    front := left[..|left| - |t|];
    assert left[|front|..] == x[|x| - |t|..] == t;
    if front != "" {
      assert front[|front| - 1] == left[|front| - 1] == x[|x| - |t| - 1] == x[|c|];
    }
  }

  /** Registered proofs are never confused: the directory that could hide a timeout would put that
      number among the paths of the inputs. */
  lemma RegisteredNotConfusable(a: Task, b: Task)
    requires RegisteredTask(a) && RegisteredTask(b) && GoodTask(a) && GoodTask(b)
    ensures !Confusable(a, b)
  {
    if Settings(a) == Settings(b) {
      if |a.directory| < |b.directory| {
        NoTimeoutInDirectory(a, b);
      } else if |b.directory| < |a.directory| {
        NoTimeoutInDirectory(b, a);
      } else {
        SettingsDetermined(a, b);
        SameDirectories(a, b);
      }
    }
  }

  lemma SameDirectories(a: Task, b: Task)
    requires Settings(a) == Settings(b) && |a.directory| == |b.directory|
    ensures a.directory == b.directory
  {
    var s, n := Settings(a), |Settings(a)| - |a.directory|;
    assert s[n..] == a.directory && s[n..] == b.directory;
  }

  lemma ElementsAreAbsolute(t: Task)
    requires RegisteredTask(t) && GoodTask(t)
    ensures forall e :: e in ListElements(t.directory + LISTS_FILE) && e != "" ==> e[0] == '/'
  {
    forall e | e in ListElements(t.directory + LISTS_FILE) && e != "" ensures e[0] == '/' {
      var i :| 0 <= i < |t.own| && t.own[i].path == e;
      assert GoodPath(t.own[i].path);
    }
  }

  lemma NoTimeoutInDirectory(a: Task, b: Task)
    requires RegisteredTask(a) && RegisteredTask(b) && GoodTask(a) && GoodTask(b)
    requires |a.directory| < |b.directory|
    ensures Settings(a) != Settings(b)
  {
    ElementsAreAbsolute(b);
    if Settings(a) == Settings(b) {
      var front := TimeoutInDirectory(a, b);
      assert b.directory + LISTS_FILE == front + a.timeout + [';'] + (a.directory + LISTS_FILE);
      PieceListed(front, a.timeout, a.directory + LISTS_FILE);
    }
  }

  lemma {:induction false} RegisteredTasks(fs: FileSystem, events: seq<Event>)
    requires RegisteredHistory(events)
    ensures forall n: string, t: Task :: (n, t) in NamedIn(fs, events) ==> RegisteredTask(t)
    decreases |events|
  {
    if events != [] {
      assert RegisteredHistory(events[1..]) by {
        assert forall i :: 0 <= i < |events[1..]| ==> events[1..][i] == events[i + 1];
      }
      match events[0]
      case Edit(fs') => RegisteredTasks(fs', events[1..]);
      case RunAll(config) =>
        RegisteredTasks(fs, events[1..]);
        forall n: string, t: Task | (n, t) in NamedOf(fs, config, config.proofs) ensures RegisteredTask(t) {
          var i :| 0 <= i < |config.proofs| && t == TaskOf(fs, config, config.proofs[i]);
          RegisteredGivesTask(fs, config, config.proofs[i]);
        }
      case _ => RegisteredTasks(fs, events[1..]);
    }
  }

  /** For proofs as they are registered the cached gate agrees with always running every proof, over
      any history and whatever their directories are called: paths are absolute and free of
      newlines, and no two of the texts digested have one digest. */
  lemma RegisteredGateAgrees(hash: string -> string, checker: Checker, fs: FileSystem, events: seq<Event>,
                             texts: set<string>)
    requires Digests(hash) && CollisionFree(hash, texts) && WithinReach(hash, NamedIn(fs, events), texts)
    requires RegisteredHistory(events) && LegalHistory(events)
    ensures Reports(hash, checker, true, fs, map[], events) == Reports(hash, checker, false, fs, map[], events)
  {
    var named := NamedIn(fs, events);
    RegisteredTasks(fs, events);
    forall n: string, t: Task, u: Task | (n, t) in named && (n, u) in named ensures !Confusable(t, u) {
      RegisteredNotConfusable(t, u);
    }
    CachedGateAgrees(hash, checker, fs, events, texts);
  }

  // ---- exactly when ----

  /** In the run the one task comes before the other, under one name. */
  predicate RunPrecedes(fs: FileSystem, config: Config, proofs: seq<Proof>, name: string, t: Task, u: Task) {
    proofs != []
    && var init, last := proofs[..|proofs| - 1], proofs[|proofs| - 1];
       || RunPrecedes(fs, config, init, name, t, u)
       || (last.name == name && TaskOf(fs, config, last) == u && (name, t) in NamedOf(fs, config, init))
  }

  lemma {:induction false} RunOrder(fs: FileSystem, config: Config, proofs: seq<Proof>, name: string, t: Task, u: Task)
    requires (name, t) in NamedOf(fs, config, proofs) && (name, u) in NamedOf(fs, config, proofs) && t != u
    ensures RunPrecedes(fs, config, proofs, name, t, u) || RunPrecedes(fs, config, proofs, name, u, t)
  {
    var init := proofs[..|proofs| - 1];
    NamedSnoc(fs, config, proofs);
    if (name, t) in NamedOf(fs, config, init) && (name, u) in NamedOf(fs, config, init) {
      RunOrder(fs, config, init, name, t, u);
    }
  }

  /** In the history the one task comes before the other, under one name. */
  predicate Precedes(fs: FileSystem, events: seq<Event>, name: string, t: Task, u: Task)
    decreases |events|
  {
    events != []
    && match events[0]
       case Edit(fs') => Precedes(fs', events[1..], name, t, u)
       case RunAll(config) =>
         || RunPrecedes(fs, config, config.proofs, name, t, u)
         || ((name, t) in NamedOf(fs, config, config.proofs) && (name, u) in NamedIn(fs, events[1..]))
         || Precedes(fs, events[1..], name, t, u)
       case _ => Precedes(fs, events[1..], name, t, u)
  }

  lemma {:induction false} HistoryOrder(fs: FileSystem, events: seq<Event>, name: string, t: Task, u: Task)
    requires (name, t) in NamedIn(fs, events) && (name, u) in NamedIn(fs, events) && t != u
    ensures Precedes(fs, events, name, t, u) || Precedes(fs, events, name, u, t)
    decreases |events|
  {
    match events[0]
    case Edit(fs') => HistoryOrder(fs', events[1..], name, t, u);
    case RunAll(config) =>
      var here, later := NamedOf(fs, config, config.proofs), NamedIn(fs, events[1..]);
      if (name, t) in here && (name, u) in here {
        RunOrder(fs, config, config.proofs, name, t, u);
      } else if (name, t) in later && (name, u) in later {
        HistoryOrder(fs, events[1..], name, t, u);
      }
    case _ => HistoryOrder(fs, events[1..], name, t, u);
  }

  /** The cached gate never reports more failures than there are. */
  lemma {:induction false} NoExtraFailures(hash: string -> string, checker: Checker, fs: FileSystem, config: Config,
                                           cache: map<string, string>, proofs: seq<Proof>)
    ensures |GateAll(hash, checker, fs, config, true, cache, proofs).failures|
         <= |FailingProofs(checker, fs, config, proofs)|
    decreases |proofs|
  {
    if proofs != [] {
      NoExtraFailures(hash, checker, fs, config, cache, proofs[..|proofs| - 1]);
    }
  }

  /** A failing proof whose entry is there is not reported. */
  lemma ReusedNotReported(hash: string -> string, checker: Checker, fs: FileSystem, config: Config,
                          cache: map<string, string>, proofs: seq<Proof>)
    requires proofs != []
    requires var init, last := proofs[..|proofs| - 1], proofs[|proofs| - 1];
             && HoldsResult(GateAll(hash, checker, fs, config, true, cache, init).cache, last.name,
                            Fingerprint(hash, TaskOf(fs, config, last)))
             && !Passes(checker(TaskOf(fs, config, last)))
    ensures |GateAll(hash, checker, fs, config, true, cache, proofs).failures|
          < |FailingProofs(checker, fs, config, proofs)|
  {
    NoExtraFailures(hash, checker, fs, config, cache, proofs[..|proofs| - 1]);
  }

  lemma {:induction false} RunMissesHeld(hash: string -> string, checker: Checker, fs: FileSystem, config: Config,
                                         cache: map<string, string>, proofs: seq<Proof>, name: string, u: Task)
    requires Digests(hash) && HoldsResult(cache, name, Fingerprint(hash, u)) && !Passes(checker(u))
    requires (name, u) in NamedOf(fs, config, proofs)
    ensures |GateAll(hash, checker, fs, config, true, cache, proofs).failures|
          < |FailingProofs(checker, fs, config, proofs)|
    decreases |proofs|
  {
    var init, last := proofs[..|proofs| - 1], proofs[|proofs| - 1];
    NamedSnoc(fs, config, proofs);
    if (name, u) in NamedOf(fs, config, init) {
      RunMissesHeld(hash, checker, fs, config, cache, init, name, u);
    } else {
      assert |Fingerprint(hash, u)| == 64;
      ResultStaysAll(hash, checker, fs, config, cache, init, name, Fingerprint(hash, u));
      ReusedNotReported(hash, checker, fs, config, cache, proofs);
    }
  }

  lemma RunStoresNamed(hash: string -> string, checker: Checker, fs: FileSystem, config: Config,
                       cache: map<string, string>, proofs: seq<Proof>, name: string, t: Task)
    requires Digests(hash) && Passes(checker(t)) && (name, t) in NamedOf(fs, config, proofs)
    ensures HoldsResult(GateAll(hash, checker, fs, config, true, cache, proofs).cache, name, Fingerprint(hash, t))
  {
    GateStores(hash, checker, fs, config, cache, proofs);
    var i :| 0 <= i < |proofs| && (name, t) == (proofs[i].name, TaskOf(fs, config, proofs[i]));
    assert StoredOne(hash, checker, fs, config, GateAll(hash, checker, fs, config, true, cache, proofs).cache,
                     proofs[i]);
  }

  lemma {:induction false} RunMisses(hash: string -> string, checker: Checker, fs: FileSystem, config: Config,
                                     cache: map<string, string>, proofs: seq<Proof>, name: string, t: Task, u: Task)
    requires Digests(hash) && Fingerprint(hash, t) == Fingerprint(hash, u)
    requires Passes(checker(t)) && !Passes(checker(u)) && RunPrecedes(fs, config, proofs, name, t, u)
    ensures |GateAll(hash, checker, fs, config, true, cache, proofs).failures|
          < |FailingProofs(checker, fs, config, proofs)|
    decreases |proofs|
  {
    var init := proofs[..|proofs| - 1];
    if RunPrecedes(fs, config, init, name, t, u) {
      RunMisses(hash, checker, fs, config, cache, init, name, t, u);
    } else {
      RunStoresNamed(hash, checker, fs, config, cache, init, name, t);
      ReusedNotReported(hash, checker, fs, config, cache, proofs);
    }
  }

  /** Reports differ when those of the first run do, or those of the rest. */
  lemma ReportsDiffer(hash: string -> string, checker: Checker, fs: FileSystem, cache: map<string, string>,
                      plain: map<string, string>, events: seq<Event>)
    requires events != [] && events[0].RunAll?
    requires var config := events[0].config;
             var cached := GateAll(hash, checker, fs, config, true, cache, config.proofs);
             || |cached.failures| < |FailingProofs(checker, fs, config, config.proofs)|
             || Reports(hash, checker, true, fs, cached.cache, events[1..])
                != Reports(hash, checker, false, fs, plain, events[1..])
    ensures Reports(hash, checker, true, fs, cache, events) != Reports(hash, checker, false, fs, plain, events)
  {
    var config := events[0].config;
    var cached := GateAll(hash, checker, fs, config, true, cache, config.proofs);
    UncachedReportsFailing(hash, checker, fs, config, plain, config.proofs);
    var x, y := Reports(hash, checker, true, fs, cache, events), Reports(hash, checker, false, fs, plain, events);
    assert x[0].0 == cached.failures && y[0].0 == FailingProofs(checker, fs, config, config.proofs);
    assert x[1..] == Reports(hash, checker, true, fs, cached.cache, events[1..]);
    assert y[1..] == Reports(hash, checker, false, fs, plain, events[1..]);
  }

  lemma {:induction false} HistoryMissesHeld(hash: string -> string, checker: Checker, fs: FileSystem,
                                             cache: map<string, string>, plain: map<string, string>,
                                             events: seq<Event>, name: string, u: Task)
    requires Digests(hash) && NoLosses(events) && (name, u) in NamedIn(fs, events)
    requires HoldsResult(cache, name, Fingerprint(hash, u)) && !Passes(checker(u))
    ensures Reports(hash, checker, true, fs, cache, events) != Reports(hash, checker, false, fs, plain, events)
    decreases |events|
  {
    assert NoLosses(events[1..]);
    match events[0]
    case Edit(fs') => HistoryMissesHeld(hash, checker, fs', cache, plain, events[1..], name, u);
    case RunAll(config) =>
      if (name, u) in NamedOf(fs, config, config.proofs) {
        RunMissesHeld(hash, checker, fs, config, cache, config.proofs, name, u);
      } else {
        assert |Fingerprint(hash, u)| == 64;
        ResultStaysAll(hash, checker, fs, config, cache, config.proofs, name, Fingerprint(hash, u));
        HistoryMissesHeld(hash, checker, fs, GateAll(hash, checker, fs, config, true, cache, config.proofs).cache,
                          plain, events[1..], name, u);
      }
      ReportsDiffer(hash, checker, fs, cache, plain, events);
  }

  /** A task that passes, and a later one of the same name and fingerprint that does not: the cached
      gate misses the failure. */
  lemma {:induction false} HistoryMisses(hash: string -> string, checker: Checker, fs: FileSystem,
                                         cache: map<string, string>, plain: map<string, string>, events: seq<Event>,
                                         name: string, t: Task, u: Task)
    requires Digests(hash) && NoLosses(events) && Fingerprint(hash, t) == Fingerprint(hash, u)
    requires Passes(checker(t)) && !Passes(checker(u)) && Precedes(fs, events, name, t, u)
    ensures Reports(hash, checker, true, fs, cache, events) != Reports(hash, checker, false, fs, plain, events)
    decreases |events|
  {
    assert NoLosses(events[1..]);
    match events[0]
    case Edit(fs') => HistoryMisses(hash, checker, fs', cache, plain, events[1..], name, t, u);
    case RunAll(config) =>
      var after := GateAll(hash, checker, fs, config, true, cache, config.proofs).cache;
      if RunPrecedes(fs, config, config.proofs, name, t, u) {
        RunMisses(hash, checker, fs, config, cache, config.proofs, name, t, u);
      } else if (name, t) in NamedOf(fs, config, config.proofs) && (name, u) in NamedIn(fs, events[1..]) {
        RunStoresNamed(hash, checker, fs, config, cache, config.proofs, name, t);
        HistoryMissesHeld(hash, checker, fs, after, plain, events[1..], name, u);
      } else {
        HistoryMisses(hash, checker, fs, after, plain, events[1..], name, t, u);
      }
      ReportsDiffer(hash, checker, fs, cache, plain, events);
  }

  const PASSING := Outcome("0", SUCCESS, "")
  const FAILING := Outcome("1", "", "")

  lemma OutcomesDiffer()
    ensures Passes(PASSING) && !Passes(FAILING)
  {
    var text := Transcript(PASSING);
    assert text == SUCCESS + "\n";
    assert text[0..0 + |SUCCESS|] == SUCCESS;
    assert LineAt(text, SUCCESS, 0);
  }

  /** Confusable tasks show: some checker tells the cached gate from the uncached one. */
  lemma ConfusionShows(hash: string -> string, fs: FileSystem, events: seq<Event>, name: string, t: Task, u: Task)
    requires Digests(hash) && NoLosses(events) && Confusable(t, u)
    requires (name, t) in NamedIn(fs, events) && (name, u) in NamedIn(fs, events)
    ensures exists checker: Checker ::
              Reports(hash, checker, true, fs, map[], events) != Reports(hash, checker, false, fs, map[], events)
  {
    OutcomesDiffer();
    HistoryOrder(fs, events, name, t, u);
    assert FingerprintText(hash, t) == FingerprintText(hash, u);
    var first, second := if Precedes(fs, events, name, t, u) then t else u,
                         if Precedes(fs, events, name, t, u) then u else t;
    var checker: Checker := x => if x == first then PASSING else FAILING;
    HistoryMisses(hash, checker, fs, map[], map[], events, name, first, second);
  }

  /** Exactly when the cache is safe: for a history of edits and runs, the cached gate reports what
      the uncached one does, whatever the checker, if and only if no two tasks that the history runs
      under one name are confusable. */
  lemma CacheExact(hash: string -> string, fs: FileSystem, events: seq<Event>, texts: set<string>)
    requires Digests(hash) && CollisionFree(hash, texts) && WithinReach(hash, NamedIn(fs, events), texts)
    requires NoLosses(events)
    ensures (forall checker: Checker ::
               Reports(hash, checker, true, fs, map[], events) == Reports(hash, checker, false, fs, map[], events))
       <==> NoConfusion(NamedIn(fs, events))
  {
    var named := NamedIn(fs, events);
    if NoConfusion(named) {
      forall checker: Checker
        ensures Reports(hash, checker, true, fs, map[], events) == Reports(hash, checker, false, fs, map[], events)
      {
        CachedGateAgrees(hash, checker, fs, events, texts);
      }
    } else {
      var n: string, t: Task, u: Task :| (n, t) in named && (n, u) in named && Confusable(t, u);
      ConfusionShows(hash, fs, events, n, t, u);
    }
  }

  /** A manifest that was not registered, before and after an edit, as an input. */
  function Before(name: string, inputs: seq<Path>): Proof {
    Proof(name, "x", "5", "/p;7;/q", inputs, [])
  }

  function After(name: string, inputs: seq<Path>): Proof {
    Proof(name, "x;5;/p", "7", "/q", inputs, [])
  }

  /** Whatever inputs such proofs have, and whatever the shared ones, the cached gate misses the
      failure that the edit brings. */
  lemma StaleReuse(hash: string -> string, checker: Checker, fs: FileSystem, name: string, inputs: seq<Path>,
                   common: seq<Path>)
    requires Digests(hash)
    requires Passes(checker(TaskOf(fs, Config([Before(name, inputs)], common), Before(name, inputs))))
    requires !Passes(checker(TaskOf(fs, Config([After(name, inputs)], common), After(name, inputs))))
    ensures var events := [RunAll(Config([Before(name, inputs)], common)),
                           RunAll(Config([After(name, inputs)], common))];
            Reports(hash, checker, true, fs, map[], events) != Reports(hash, checker, false, fs, map[], events)
  {
    var first, second := Config([Before(name, inputs)], common), Config([After(name, inputs)], common);
    var t, u := TaskOf(fs, first, first.proofs[0]), TaskOf(fs, second, second.proofs[0]);
    var events := [RunAll(first), RunAll(second)];
    assert events[1..] == [RunAll(second)];
    AmbiguousDirectory(t.common, t.own);
    assert (name, t) in NamedOf(fs, first, first.proofs) by {
      assert (name, t) == (first.proofs[0].name, TaskOf(fs, first, first.proofs[0]));
    }
    assert (name, u) in NamedOf(fs, second, second.proofs) by {
      assert (name, u) == (second.proofs[0].name, TaskOf(fs, second, second.proofs[0]));
    }
    assert Fingerprint(hash, t) == Fingerprint(hash, u);
    HistoryMisses(hash, checker, fs, map[], map[], events, name, t, u);
  }
}
