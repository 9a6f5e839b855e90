/** The logger registry under concurrency: any number of threads in Register and Find, one
    allocation, lock operation or pointer access at a time, in any order. */
module RegistryInterleaving {
  import opened LogLevels
  import opened Wrappers

  type Tid = nat
  type Addr = nat

  datatype Info = Info(id: string, description: string, threshold: LogLevel)

  /** A logger object, with the two buffers it owns. */
  datatype Node = Node(info: Info, idBuffer: Addr, descriptionBuffer: Addr, next: Option<Addr>)

  /** Where a thread is. */
  datatype Pc =
    | Idle
    | RegAllocateId(info: Info)
    | RegAllocateDescription(info: Info, idBuffer: Addr)
    | RegAllocateLogger(info: Info, idBuffer: Addr, descriptionBuffer: Addr)
    | RegLock(info: Info, logger: Addr)
    | RegLink(info: Info, logger: Addr)
    | RegPublish(info: Info, logger: Addr)
    | RegUnlock(info: Info, logger: Addr, at: nat)
    | RegDone(info: Info, logger: Addr, at: nat)
    | RegFailed(info: Info)
    | FindLock(info: Info)
    | FindScan(info: Info, current: Option<Addr>)
    | FindUnlock(info: Info, found: Option<Addr>, matches: bool)
    | FindDecide(info: Info, found: Option<Addr>, matches: bool, at: nat)
    | FindDone(info: Info, logger: Addr, at: nat)

  /** Who is answerable for a block of memory. */
  datatype Owner = InFlight(t: Tid) | Published(logger: Addr)

  datatype Op = Registers(logger: Addr, info: Info) | Finds(id: string, found: Option<Addr>)

  datatype State = State(
    lock: Option<Tid>,
    head: Option<Addr>,
    nodes: map<Addr, Node>,
    threads: map<Tid, Pc>,
    terminated: bool,
    nextAddr: Addr,
    // What follows is not in the program: it records who owns which live block, which blocks were
    // freed, the list newest first, and the operations in the order in which they took effect.
    owner: map<Addr, Owner>,
    freed: set<Addr>,
    published: seq<Addr>,
    history: seq<Op>)

  datatype Action = CallRegister(info: Info) | CallFind(info: Info) | Proceed(ok: bool)

  function At(s: State, t: Tid): Pc {
    if t in s.threads then s.threads[t] else Idle
  }

  function Blocks(node: Node, a: Addr): set<Addr> {
    {node.idBuffer, node.descriptionBuffer, a}
  }

  /** The blocks a thread has allocated and neither freed nor published. */
  function Held(s: State, pc: Pc): set<Addr> {
    match pc
    case RegAllocateDescription(_, idBuffer) => {idBuffer}
    case RegAllocateLogger(_, idBuffer, descriptionBuffer) => {idBuffer, descriptionBuffer}
    case RegLock(_, a) => if a in s.nodes then Blocks(s.nodes[a], a) else {}
    case RegLink(_, a) => if a in s.nodes then Blocks(s.nodes[a], a) else {}
    case RegPublish(_, a) => if a in s.nodes then Blocks(s.nodes[a], a) else {}
    case _ => {}
  }

  /** One step of thread `t` inside Register. `ok` says whether the allocation or the mutex
      operation it is about to make succeeds. There is none when the thread has to wait. */
  function RegisterNext(s: State, t: Tid, pc: Pc, ok: bool): Option<State> {
    match pc
    case RegAllocateId(info) =>
      if ok then
        Some(s.(nextAddr := s.nextAddr + 1, owner := s.owner[s.nextAddr := InFlight(t)],
                threads := s.threads[t := RegAllocateDescription(info, s.nextAddr)]))
      else Some(s.(threads := s.threads[t := RegFailed(info)]))
    case RegAllocateDescription(info, idBuffer) =>
      if ok then
        Some(s.(nextAddr := s.nextAddr + 1, owner := s.owner[s.nextAddr := InFlight(t)],
                threads := s.threads[t := RegAllocateLogger(info, idBuffer, s.nextAddr)]))
      else Some(Released(s, t, info, {idBuffer}))
    case RegAllocateLogger(info, idBuffer, descriptionBuffer) =>
      if ok then
        Some(s.(nextAddr := s.nextAddr + 1, owner := s.owner[s.nextAddr := InFlight(t)],
                nodes := s.nodes[s.nextAddr := Node(info, idBuffer, descriptionBuffer, None)],
                threads := s.threads[t := RegLock(info, s.nextAddr)]))
      else Some(Released(s, t, info, {idBuffer, descriptionBuffer}))
    case RegLock(info, a) =>
      if !ok then Some(Released(s, t, info, Held(s, pc)))
      else if s.lock.Some? then None
      else Some(s.(lock := Some(t), threads := s.threads[t := RegLink(info, a)]))
    case RegLink(info, a) =>
      if a !in s.nodes then None
      else
        Some(s.(nodes := s.nodes[a := s.nodes[a].(next := s.head)], threads := s.threads[t := RegPublish(info, a)]))
    case RegPublish(info, a) =>
      if a !in s.nodes then None
      else
        var blocks := Blocks(s.nodes[a], a);
        Some(s.(head := Some(a),
                owner := map b | b in s.owner :: if b in blocks then Published(a) else s.owner[b],
                published := [a] + s.published,
                history := s.history + [Registers(a, s.nodes[a].info)],
                threads := s.threads[t := RegUnlock(info, a, |s.history|)]))
    case RegUnlock(info, a, at) =>
      if ok then Some(s.(lock := None, threads := s.threads[t := RegDone(info, a, at)]))
      else Some(s.(terminated := true))
    case _ => None
  }

  /** The failure path of Register: everything allocated is freed again. */
  function Released(s: State, t: Tid, info: Info, blocks: set<Addr>): State {
    s.(owner := s.owner - blocks, freed := s.freed + blocks, nodes := s.nodes - blocks,
       threads := s.threads[t := RegFailed(info)])
  }

  /** One step of thread `t` inside Find. */
  function FindNext(s: State, t: Tid, pc: Pc, ok: bool): Option<State> {
    match pc
    case FindLock(info) =>
      if !ok then Some(s.(terminated := true))
      else if s.lock.Some? then None
      else Some(s.(lock := Some(t), threads := s.threads[t := FindScan(info, s.head)]))
    case FindScan(info, current) =>
      if current.None? then Some(s.(threads := s.threads[t := FindUnlock(info, None, false)]))
      else if current.value !in s.nodes then None
      else
        var node := s.nodes[current.value];
        if node.info.id == info.id then
          Some(s.(threads := s.threads[t := FindUnlock(info, current, node.info == info)]))
        else Some(s.(threads := s.threads[t := FindScan(info, node.next)]))
    case FindUnlock(info, found, matches) =>
      if ok then
        Some(s.(lock := None, history := s.history + [Finds(info.id, found)],
                threads := s.threads[t := FindDecide(info, found, matches, |s.history|)]))
      else Some(s.(terminated := true))
    case FindDecide(info, found, matches, at) =>
      if !matches || found.None? then Some(s.(terminated := true))
      else Some(s.(threads := s.threads[t := FindDone(info, found.value, at)]))
    case _ => None
  }

  predicate InRegister(pc: Pc) {
    || pc.RegAllocateId? || pc.RegAllocateDescription? || pc.RegAllocateLogger? || pc.RegLock? || pc.RegLink?
    || pc.RegPublish? || pc.RegUnlock?
  }

  predicate InFind(pc: Pc) {
    pc.FindLock? || pc.FindScan? || pc.FindUnlock? || pc.FindDecide?
  }

  /** A call, which checks nothing but the threshold, or a return. */
  function CallNext(s: State, t: Tid, pc: Pc, action: Action): Option<State> {
    if !pc.Idle? then Some(s.(threads := s.threads[t := Idle]))
    else match action
      case CallRegister(info) =>
        if info.threshold > VERBOSE then Some(s.(terminated := true))
        else Some(s.(threads := s.threads[t := RegAllocateId(info)]))
      case CallFind(info) => Some(s.(threads := s.threads[t := FindLock(info)]))
      case Proceed(_) => None
  }

  /** One step of thread `t`. */
  function Next(s: State, t: Tid, action: Action): Option<State> {
    if s.terminated then None
    else if InRegister(At(s, t)) then (if action.Proceed? then RegisterNext(s, t, At(s, t), action.ok) else None)
    else if InFind(At(s, t)) then (if action.Proceed? then FindNext(s, t, At(s, t), action.ok) else None)
    else CallNext(s, t, At(s, t), action)
  }

  /** Every interleaving: a schedule says which thread moves, and how. */
  function Exec(s: State, schedule: seq<(Tid, Action)>): Option<State>
    decreases |schedule|
  {
    if schedule == [] then Some(s)
    else
      var s' :- Next(s, schedule[0].0, schedule[0].1);
      Exec(s', schedule[1..])
  }

  const INITIAL := State(None, None, map[], map[], false, 0, map[], {}, [], [])

  // ---- the invariant ----

  predicate Critical(pc: Pc) {
    pc.RegLink? || pc.RegPublish? || pc.RegUnlock? || pc.FindScan? || pc.FindUnlock?
  }

  /** Mutual exclusion: the lock holder is the one thread in a critical section. */
  ghost predicate Exclusive(s: State) {
    forall t: Tid :: Critical(At(s, t)) <==> s.lock == Some(t)
  }

  function First(list: seq<Addr>): Option<Addr> {
    if list == [] then None else Some(list[0])
  }

  /** The links from `from` spell out `list`. Lists are finite, so this also says there is no cycle. */
  predicate Spells(nodes: map<Addr, Node>, list: seq<Addr>) {
    list == [] || (list[0] in nodes && nodes[list[0]].next == First(list[1..]) && Spells(nodes, list[1..]))
  }

  ghost predicate ListOk(s: State) {
    && s.head == First(s.published)
    && Spells(s.nodes, s.published)
    && (forall i, j :: 0 <= i < j < |s.published| ==> s.published[i] != s.published[j])
  }

  /** A block is owned by a thread exactly when that thread holds it. */
  ghost predicate HeldOk(s: State) {
    && (forall b :: b in s.nodes ==> b in s.owner)
    && (forall t: Tid, b: Addr :: b in Held(s, At(s, t)) <==> b in s.owner && s.owner[b] == InFlight(t))
  }

  /** A block is owned by a published logger exactly when it is that logger or one of its buffers. */
  ghost predicate OwnedOk(s: State) {
    && (forall a :: a in s.published ==> a in s.nodes)
    && (forall a, b :: b in s.owner && s.owner[b] == Published(a) <==> a in s.published && b in Blocks(s.nodes[a], a))
  }

  /** Every block ever allocated is live or freed, and not both. */
  ghost predicate TotalOk(s: State) {
    && (forall b :: b in s.owner ==> b !in s.freed)
    && (forall b: Addr :: b < s.nextAddr <==> b in s.owner || b in s.freed)
  }

  ghost predicate MemoryOk(s: State) {
    HeldOk(s) && OwnedOk(s) && TotalOk(s)
  }

  /** The newest entry of a list with an id. */
  function Newest(nodes: map<Addr, Node>, list: seq<Addr>, id: string): Option<Addr> {
    if list == [] then None
    else if list[0] in nodes && nodes[list[0]].info.id == id then Some(list[0])
    else Newest(nodes, list[1..], id)
  }

  /** A scan that stands at `current` has passed `k` entries, none of which has the id. */
  ghost predicate Scanned(s: State, id: string, current: Option<Addr>, k: nat) {
    && k <= |s.published| && current == First(s.published[k..])
    && Newest(s.nodes, s.published, id) == Newest(s.nodes, s.published[k..], id)
  }

  /** `matches` says whether the logger found has the data asked for. */
  predicate Compared(s: State, info: Info, found: Option<Addr>, matches: bool) {
    match found
    case None => !matches
    case Some(a) => a in s.published && a in s.nodes && matches == (s.nodes[a].info == info)
  }

  /** The logger was published at point `at` of the history, with the data asked for. */
  predicate Entered(s: State, info: Info, a: Addr, at: nat) {
    && at < |s.history| && s.history[at] == Registers(a, info)
    && a in s.published && a in s.nodes && s.nodes[a].info == info
  }

  /** What a thread knows where it is. */
  ghost predicate Knows(s: State, t: Tid) {
    match At(s, t)
    case RegAllocateLogger(_, idBuffer, descriptionBuffer) => idBuffer != descriptionBuffer
    case RegLock(info, a) => a in s.nodes && s.nodes[a].info == info
    case RegLink(info, a) => a in s.nodes && s.nodes[a].info == info
    case RegPublish(info, a) => a in s.nodes && s.nodes[a].info == info && s.nodes[a].next == s.head
    case RegUnlock(info, a, at) => Entered(s, info, a, at)
    case RegDone(info, a, at) => Entered(s, info, a, at)
    case FindScan(info, current) => exists k: nat :: Scanned(s, info.id, current, k)
    case FindUnlock(info, found, matches) =>
      && found == Newest(s.nodes, s.published, info.id)
      && Compared(s, info, found, matches)
    case FindDecide(info, found, matches, at) =>
      && at < |s.history| && s.history[at] == Finds(info.id, found)
      && Compared(s, info, found, matches)
    case FindDone(info, a, at) =>
      && at < |s.history| && s.history[at] == Finds(info.id, Some(a))
      && a in s.published && a in s.nodes && s.nodes[a].info == info
    case _ => true
  }

  /** The list a history of atomic operations builds, newest first; nothing when some lookup in it
      did not find what an atomic lookup would have found. */
  function Replay(history: seq<Op>): Option<seq<(Addr, Info)>>
    decreases |history|
  {
    if history == [] then Some([])
    else
      var before :- Replay(history[..|history| - 1]);
      match history[|history| - 1]
      case Registers(a, info) => Some([(a, info)] + before)
      case Finds(id, found) => if found == Lookup(before, id) then Some(before) else None
  }

  /** The atomic lookup: the newest entry with the id. */
  function Lookup(entries: seq<(Addr, Info)>, id: string): Option<Addr> {
    if entries == [] then None
    else if entries[0].1.id == id then Some(entries[0].0)
    else Lookup(entries[1..], id)
  }

  function Listing(nodes: map<Addr, Node>, list: seq<Addr>): seq<(Addr, Info)> {
    if list == [] then []
    else (if list[0] in nodes then [(list[0], nodes[list[0]].info)] else []) + Listing(nodes, list[1..])
  }

  ghost predicate HistoryOk(s: State) {
    Replay(s.history) == Some(Listing(s.nodes, s.published))
  }

  ghost predicate Inv(s: State) {
    Exclusive(s) && ListOk(s) && MemoryOk(s) && HistoryOk(s) && forall t: Tid :: Knows(s, t)
  }

  lemma InitialOk()
    ensures Inv(INITIAL)
  {
  }

  /** Links and lookups depend only on the nodes of the list. */
  lemma {:induction false} SameNodes(before: map<Addr, Node>, after: map<Addr, Node>, list: seq<Addr>, id: string)
    requires forall a :: a in list ==> a in before && a in after && after[a] == before[a]
    ensures Spells(after, list) <==> Spells(before, list)
    ensures Listing(after, list) == Listing(before, list)
    ensures Newest(after, list, id) == Newest(before, list, id)
  {
    if list != [] {
      SameNodes(before, after, list[1..], id);
    }
  }

  lemma {:induction false} NewestIsLookup(nodes: map<Addr, Node>, list: seq<Addr>, id: string)
    requires Spells(nodes, list)
    ensures Newest(nodes, list, id) == Lookup(Listing(nodes, list), id)
    ensures Newest(nodes, list, id).Some? ==> Newest(nodes, list, id).value in list
  {
    if list != [] {
      NewestIsLookup(nodes, list[1..], id);
      assert Listing(nodes, list)[1..] == Listing(nodes, list[1..]);
    }
  }

  /** A step moves only its own thread. */
  lemma OthersStay(s: State, t: Tid, action: Action, s': State)
    requires Next(s, t, action) == Some(s')
    ensures forall u: Tid :: u != t ==> At(s', u) == At(s, u)
  {
    if InRegister(At(s, t)) {
      RegisterOthersStay(s, t, action.ok, s');
    }
  }

  lemma RegisterOthersStay(s: State, t: Tid, ok: bool, s': State)
    requires RegisterNext(s, t, At(s, t), ok) == Some(s')
    ensures forall u: Tid :: u != t ==> At(s', u) == At(s, u)
  {
  }

  /** The lock is taken by a thread entering a critical section and given up by one leaving it. */
  ghost predicate LockFollows(s: State, t: Tid, s': State) {
    && (Critical(At(s', t)) <==> s'.lock == Some(t))
    && (s'.lock == s.lock || (s.lock == None && s'.lock == Some(t)) || (s.lock == Some(t) && s'.lock == None))
  }

  lemma RegisterLockStep(s: State, t: Tid, ok: bool, s': State)
    requires RegisterNext(s, t, At(s, t), ok) == Some(s')
    requires Critical(At(s, t)) <==> s.lock == Some(t)
    ensures LockFollows(s, t, s')
  {
  }

  lemma LockStep(s: State, t: Tid, action: Action, s': State)
    requires Next(s, t, action) == Some(s')
    requires Critical(At(s, t)) <==> s.lock == Some(t)
    ensures LockFollows(s, t, s')
  {
    if InRegister(At(s, t)) {
      RegisterLockStep(s, t, action.ok, s');
    }
  }

  lemma StepKeepsExclusive(s: State, t: Tid, action: Action, s': State)
    requires Exclusive(s) && Next(s, t, action) == Some(s')
    ensures Exclusive(s')
  {
    OthersStay(s, t, action, s');
    LockStep(s, t, action, s');
    forall u: Tid ensures Critical(At(s', u)) <==> s'.lock == Some(u) {
      if u != t {
        assert Critical(At(s, u)) <==> s.lock == Some(u);
      }
    }
  }

  /** Calls, returns and lookups change no memory and not the list. */
  lemma LookupsOnlyRead(s: State, t: Tid, action: Action, s': State)
    requires Next(s, t, action) == Some(s') && !InRegister(At(s, t))
    ensures s'.nodes == s.nodes && s'.head == s.head && s'.published == s.published
    ensures s'.owner == s.owner && s'.freed == s.freed && s'.nextAddr == s.nextAddr
    ensures s'.history == s.history
         || (At(s, t).FindUnlock? && s'.history == s.history + [Finds(At(s, t).info.id, At(s, t).found)])
    ensures Held(s, At(s, t)) == Held(s', At(s', t)) == {}
  {
    if InFind(At(s, t)) {
      FindOnlyReads(s, t, action.ok, s');
    }
  }

  lemma FindOnlyReads(s: State, t: Tid, ok: bool, s': State)
    requires FindNext(s, t, At(s, t), ok) == Some(s')
    ensures s'.nodes == s.nodes && s'.head == s.head && s'.published == s.published
    ensures s'.owner == s.owner && s'.freed == s.freed && s'.nextAddr == s.nextAddr
    ensures s'.history == s.history
         || (At(s, t).FindUnlock? && s'.history == s.history + [Finds(At(s, t).info.id, At(s, t).found)])
    ensures Held(s, At(s, t)) == Held(s', At(s', t)) == {}
  {
  }

  /** A step changes or removes no node but those its thread holds. */
  ghost predicate NodesFrame(s: State, t: Tid, s': State) {
    forall b :: b in s.nodes && (b in s.owner ==> s.owner[b] != InFlight(t)) ==>
      b in s'.nodes && s'.nodes[b] == s.nodes[b]
  }

  lemma RegisterFrame(s: State, t: Tid, ok: bool, s': State)
    requires MemoryOk(s) && Knows(s, t) && RegisterNext(s, t, At(s, t), ok) == Some(s')
    ensures NodesFrame(s, t, s')
  {
    match At(s, t)
    case RegAllocateLogger(_, _, _) =>
      if ok { assert s.nextAddr !in s.owner; } else { ReleasedFrame(s, t, s'); }
    case RegAllocateDescription(_, _) => if !ok { ReleasedFrame(s, t, s'); }
    case RegLock(_, _) => if !ok { ReleasedFrame(s, t, s'); }
    case RegLink(_, a) => assert a in Held(s, At(s, t));
    case _ =>
  }

  lemma ReleasedFrame(s: State, t: Tid, s': State)
    requires HeldOk(s) && s'.nodes == s.nodes - Held(s, At(s, t))
    ensures NodesFrame(s, t, s')
  {
    assert forall b :: b in Held(s, At(s, t)) ==> b in s.owner && s.owner[b] == InFlight(t);
  }

  lemma StepFrame(s: State, t: Tid, action: Action, s': State)
    requires MemoryOk(s) && Knows(s, t) && Next(s, t, action) == Some(s')
    ensures NodesFrame(s, t, s')
  {
    if InRegister(At(s, t)) {
      RegisterFrame(s, t, action.ok, s');
    } else {
      LookupsOnlyRead(s, t, action, s');
    }
  }

  lemma PublishedStay(s: State, t: Tid, action: Action, s': State)
    requires MemoryOk(s) && Knows(s, t) && Next(s, t, action) == Some(s')
    ensures forall a :: a in s.published ==> a in s.nodes && a in s'.nodes && s'.nodes[a] == s.nodes[a]
  {
    StepFrame(s, t, action, s');
    forall a | a in s.published ensures a in s.nodes && a in s'.nodes && s'.nodes[a] == s.nodes[a] {
      PublishedOwnsItself(s, a);
    }
  }

  /** Where a step changes the list: only where a lock holder publishes its logger. */
  lemma ListStep(s: State, t: Tid, action: Action, s': State)
    requires Next(s, t, action) == Some(s')
    ensures (s'.head == s.head && s'.published == s.published)
         || (At(s, t).RegPublish? && At(s, t).logger in s.nodes && s'.nodes == s.nodes
             && s'.head == Some(At(s, t).logger) && s'.published == [At(s, t).logger] + s.published
             && s'.history == s.history + [Registers(At(s, t).logger, s.nodes[At(s, t).logger].info)])
    ensures s.history <= s'.history
    ensures s'.history == s.history || At(s, t).RegPublish?
         || (At(s, t).FindUnlock? && s'.history == s.history + [Finds(At(s, t).info.id, At(s, t).found)])
  {
    if !InRegister(At(s, t)) {
      LookupsOnlyRead(s, t, action, s');
    }
  }

  lemma PublishedOwnsItself(s: State, a: Addr)
    requires OwnedOk(s) && a in s.published
    ensures a in s.owner && s.owner[a] == Published(a)
  {
    assert a in Blocks(s.nodes[a], a);
  }

  lemma StepKeepsList(s: State, t: Tid, action: Action, s': State)
    requires ListOk(s) && MemoryOk(s) && Knows(s, t) && Next(s, t, action) == Some(s')
    ensures ListOk(s')
  {
    ListStep(s, t, action, s');
    PublishedStay(s, t, action, s');
    SameNodes(s.nodes, s'.nodes, s.published, "");
    if s'.published != s.published {
      LinkedLoggerIsNew(s, t);
      assert s'.published[1..] == s.published;
    }
  }

  lemma LinkedLoggerIsNew(s: State, t: Tid)
    requires MemoryOk(s) && Knows(s, t) && At(s, t).RegPublish?
    ensures At(s, t).logger !in s.published
  {
    var a := At(s, t).logger;
    assert a in Held(s, At(s, t));
    if a in s.published {
      PublishedOwnsItself(s, a);
    }
  }

  lemma StepKeepsHistory(s: State, t: Tid, action: Action, s': State)
    requires ListOk(s) && MemoryOk(s) && HistoryOk(s) && Knows(s, t) && Next(s, t, action) == Some(s')
    ensures HistoryOk(s')
  {
    ListStep(s, t, action, s');
    PublishedStay(s, t, action, s');
    SameNodes(s.nodes, s'.nodes, s.published, "");
    if s'.history != s.history {
      assert s'.history[..|s'.history| - 1] == s.history;
      if At(s, t).RegPublish? {
        assert s'.published[1..] == s.published;
      } else {
        NewestIsLookup(s.nodes, s.published, At(s, t).info.id);
      }
    }
  }

  lemma HeldStays(s: State, t: Tid, s': State, u: Tid)
    requires HeldOk(s) && Knows(s, u) && NodesFrame(s, t, s') && u != t && At(s', u) == At(s, u)
    ensures Held(s', At(s', u)) == Held(s, At(s, u))
  {
    match At(s, u)
    case RegLock(_, a) => assert a in Held(s, At(s, u));
    case RegLink(_, a) => assert a in Held(s, At(s, u));
    case RegPublish(_, a) => assert a in Held(s, At(s, u));
    case _ =>
  }

  lemma OthersHold(s: State, t: Tid, action: Action, s': State)
    requires MemoryOk(s) && (forall u: Tid :: Knows(s, u)) && Next(s, t, action) == Some(s')
    ensures forall u: Tid :: u != t ==> Held(s', At(s', u)) == Held(s, At(s, u))
  {
    assert Knows(s, t);
    OthersStay(s, t, action, s');
    StepFrame(s, t, action, s');
    forall u: Tid | u != t ensures Held(s', At(s', u)) == Held(s, At(s, u)) {
      assert Knows(s, u);
      HeldStays(s, t, s', u);
    }
  }

  /** Memory stays accounted for when a thread gets a block ... */
  lemma AllocationKeepsMemory(s: State, t: Tid, s': State)
    requires MemoryOk(s)
    requires forall u: Tid :: u != t ==> Held(s', At(s', u)) == Held(s, At(s, u))
    requires Held(s', At(s', t)) == Held(s, At(s, t)) + {s.nextAddr}
    requires s'.owner == s.owner[s.nextAddr := InFlight(t)] && s'.nextAddr == s.nextAddr + 1
    requires s'.freed == s.freed && s'.published == s.published
    requires s'.nodes == s.nodes || (s'.nodes.Keys == s.nodes.Keys + {s.nextAddr}
                                     && forall b :: b in s.nodes ==> s'.nodes[b] == s.nodes[b])
    ensures MemoryOk(s')
  {
    assert s.nextAddr !in s.owner && s.nextAddr !in s.freed;
    AllocationKeepsHeld(s, t, s');
    AllocationKeepsOwned(s, t, s');
  }

  lemma AllocationKeepsHeld(s: State, t: Tid, s': State)
    requires HeldOk(s) && s.nextAddr !in s.owner
    requires forall u: Tid :: u != t ==> Held(s', At(s', u)) == Held(s, At(s, u))
    requires Held(s', At(s', t)) == Held(s, At(s, t)) + {s.nextAddr}
    requires s'.owner == s.owner[s.nextAddr := InFlight(t)]
    requires s'.nodes.Keys <= s.nodes.Keys + {s.nextAddr}
    ensures HeldOk(s')
  {
    forall u: Tid, b: Addr ensures b in Held(s', At(s', u)) <==> b in s'.owner && s'.owner[b] == InFlight(u) {
      assert b in Held(s, At(s, u)) <==> b in s.owner && s.owner[b] == InFlight(u);
    }
  }

  lemma AllocationKeepsOwned(s: State, t: Tid, s': State)
    requires OwnedOk(s) && s.nextAddr !in s.owner
    requires s'.owner == s.owner[s.nextAddr := InFlight(t)] && s'.published == s.published
    requires forall b :: b in s.nodes ==> b in s'.nodes && s'.nodes[b] == s.nodes[b]
    ensures OwnedOk(s')
  {
    forall a, b
      ensures b in s'.owner && s'.owner[b] == Published(a) <==> a in s'.published && b in Blocks(s'.nodes[a], a)
    {
      assert b in s.owner && s.owner[b] == Published(a) <==> a in s.published && b in Blocks(s.nodes[a], a);
    }
  }

  /** ... when it gives back all it holds ... */
  lemma ReleaseKeepsHeld(s: State, t: Tid, s': State)
    requires HeldOk(s)
    requires forall u: Tid :: u != t ==> Held(s', At(s', u)) == Held(s, At(s, u))
    requires Held(s', At(s', t)) == {}
    requires s'.owner == s.owner - Held(s, At(s, t)) && s'.nodes == s.nodes - Held(s, At(s, t))
    ensures HeldOk(s')
  {
    forall u: Tid, b: Addr ensures b in Held(s', At(s', u)) <==> b in s'.owner && s'.owner[b] == InFlight(u) {
      assert b in Held(s, At(s, u)) <==> b in s.owner && s.owner[b] == InFlight(u);
      assert b in Held(s, At(s, t)) <==> b in s.owner && s.owner[b] == InFlight(t);
    }
  }

  lemma ReleaseKeepsOwned(s: State, t: Tid, s': State)
    requires OwnedOk(s)
    requires forall b :: b in Held(s, At(s, t)) ==> b in s.owner && s.owner[b] == InFlight(t)
    requires s'.owner == s.owner - Held(s, At(s, t)) && s'.nodes == s.nodes - Held(s, At(s, t))
    requires s'.published == s.published
    ensures OwnedOk(s')
  {
    forall a | a in s'.published ensures a in s'.nodes && s'.nodes[a] == s.nodes[a] {
      assert a in Blocks(s.nodes[a], a);
      assert s.owner[a] == Published(a);
    }
    forall a, b
      ensures b in s'.owner && s'.owner[b] == Published(a) <==> a in s'.published && b in Blocks(s'.nodes[a], a)
    {
      assert b in s.owner && s.owner[b] == Published(a) <==> a in s.published && b in Blocks(s.nodes[a], a);
    }
  }

  lemma ReleaseKeepsMemory(s: State, t: Tid, s': State)
    requires MemoryOk(s)
    requires forall u: Tid :: u != t ==> Held(s', At(s', u)) == Held(s, At(s, u))
    requires Held(s', At(s', t)) == {}
    requires s'.owner == s.owner - Held(s, At(s, t)) && s'.freed == s.freed + Held(s, At(s, t))
    requires s'.nodes == s.nodes - Held(s, At(s, t)) && s'.published == s.published && s'.nextAddr == s.nextAddr
    ensures MemoryOk(s')
  {
    assert forall b :: b in Held(s, At(s, t)) ==> b in s.owner && s.owner[b] == InFlight(t);
    ReleaseKeepsHeld(s, t, s');
    ReleaseKeepsOwned(s, t, s');
  }

  /** ... when it does neither ... */
  lemma QuietKeepsMemory(s: State, t: Tid, s': State)
    requires MemoryOk(s)
    requires forall u: Tid :: Held(s', At(s', u)) == Held(s, At(s, u))
    requires s'.owner == s.owner && s'.freed == s.freed && s'.published == s.published && s'.nextAddr == s.nextAddr
    requires s'.nodes.Keys == s.nodes.Keys
    requires forall b :: b in s.nodes ==> Blocks(s'.nodes[b], b) == Blocks(s.nodes[b], b)
    ensures MemoryOk(s')
  {
    QuietKeepsHeld(s, t, s');
    QuietKeepsOwned(s, s');
  }

  lemma QuietKeepsHeld(s: State, t: Tid, s': State)
    requires HeldOk(s)
    requires forall u: Tid :: Held(s', At(s', u)) == Held(s, At(s, u))
    requires s'.owner == s.owner && s'.nodes.Keys == s.nodes.Keys
    ensures HeldOk(s')
  {
    forall u: Tid, b: Addr ensures b in Held(s', At(s', u)) <==> b in s'.owner && s'.owner[b] == InFlight(u) {
      assert b in Held(s, At(s, u)) <==> b in s.owner && s.owner[b] == InFlight(u);
    }
  }

  lemma QuietKeepsOwned(s: State, s': State)
    requires OwnedOk(s) && s'.owner == s.owner && s'.published == s.published
    requires s'.nodes.Keys == s.nodes.Keys
    requires forall b :: b in s.nodes ==> Blocks(s'.nodes[b], b) == Blocks(s.nodes[b], b)
    ensures OwnedOk(s')
  {
    forall a, b
      ensures b in s'.owner && s'.owner[b] == Published(a) <==> a in s'.published && b in Blocks(s'.nodes[a], a)
    {
      assert b in s.owner && s.owner[b] == Published(a) <==> a in s.published && b in Blocks(s.nodes[a], a);
    }
  }

  /** ... and when it hands its logger, with its buffers, to the registry. */
  lemma PublicationKeepsHeld(s: State, t: Tid, a: Addr, s': State)
    requires HeldOk(s) && a in s.nodes && At(s, t).RegPublish? && At(s, t).logger == a && At(s', t).RegUnlock?
    requires forall u: Tid :: u != t ==> Held(s', At(s', u)) == Held(s, At(s, u))
    requires s'.nodes == s.nodes && s'.owner.Keys == s.owner.Keys
    requires forall b :: b in s.owner ==> s'.owner[b] == if b in Blocks(s.nodes[a], a) then Published(a) else s.owner[b]
    ensures HeldOk(s')
  {
    assert Held(s, At(s, t)) == Blocks(s.nodes[a], a);
    forall u: Tid, b: Addr ensures b in Held(s', At(s', u)) <==> b in s'.owner && s'.owner[b] == InFlight(u) {
      assert b in Held(s, At(s, u)) <==> b in s.owner && s.owner[b] == InFlight(u);
      assert b in Held(s, At(s, t)) <==> b in s.owner && s.owner[b] == InFlight(t);
    }
  }

  lemma PublicationKeepsOwned(s: State, t: Tid, a: Addr, s': State)
    requires OwnedOk(s) && a in s.nodes
    requires forall b :: b in Blocks(s.nodes[a], a) ==> b in s.owner && s.owner[b] == InFlight(t)
    requires s'.nodes == s.nodes && s'.owner.Keys == s.owner.Keys
    requires forall b :: b in s.owner ==> s'.owner[b] == if b in Blocks(s.nodes[a], a) then Published(a) else s.owner[b]
    requires s'.published == [a] + s.published
    ensures OwnedOk(s')
  {
    assert a in Blocks(s.nodes[a], a);
    assert a !in s.published by {
      if a in s.published {
        PublishedOwnsItself(s, a);
      }
    }
    assert forall c :: c in s'.published <==> c == a || c in s.published;
    forall c, b
      ensures b in s'.owner && s'.owner[b] == Published(c) <==> c in s'.published && b in Blocks(s'.nodes[c], c)
    {
      assert b in s.owner && s.owner[b] == Published(c) <==> c in s.published && b in Blocks(s.nodes[c], c);
    }
  }

  lemma HoldsWhatItPublishes(s: State, t: Tid, a: Addr)
    requires HeldOk(s) && a in s.nodes && At(s, t).RegPublish? && At(s, t).logger == a
    ensures forall b :: b in Blocks(s.nodes[a], a) ==> b in s.owner && s.owner[b] == InFlight(t)
  {
    assert Held(s, At(s, t)) == Blocks(s.nodes[a], a);
  }

  lemma PublicationKeepsMemory(s: State, t: Tid, a: Addr, s': State)
    requires MemoryOk(s) && a in s.nodes && At(s, t).RegPublish? && At(s, t).logger == a && At(s', t).RegUnlock?
    requires forall u: Tid :: u != t ==> Held(s', At(s', u)) == Held(s, At(s, u))
    requires s'.nodes == s.nodes && s'.freed == s.freed && s'.nextAddr == s.nextAddr
    requires s'.owner.Keys == s.owner.Keys
    requires forall b :: b in s.owner ==> s'.owner[b] == if b in Blocks(s.nodes[a], a) then Published(a) else s.owner[b]
    requires s'.published == [a] + s.published
    ensures MemoryOk(s')
  {
    HoldsWhatItPublishes(s, t, a);
    PublicationKeepsHeld(s, t, a, s');
    PublicationKeepsOwned(s, t, a, s');
    SameBlocksTotal(s, s');
  }

  lemma SameBlocksTotal(s: State, s': State)
    requires TotalOk(s) && s'.owner.Keys == s.owner.Keys && s'.freed == s.freed && s'.nextAddr == s.nextAddr
    ensures TotalOk(s')
  {
    assert forall b :: b in s'.owner <==> b in s.owner;
  }

  lemma AllocationStepKeepsMemory(s: State, t: Tid, action: Action, s': State)
    requires MemoryOk(s) && Next(s, t, action) == Some(s')
    requires forall u: Tid :: u != t ==> Held(s', At(s', u)) == Held(s, At(s, u))
    requires At(s, t).RegAllocateId? || At(s, t).RegAllocateDescription? || At(s, t).RegAllocateLogger?
    ensures MemoryOk(s')
  {
    if action.ok {
      AllocationKeepsMemory(s, t, s');
    } else if At(s, t).RegAllocateId? {
      QuietKeepsMemory(s, t, s');
    } else {
      ReleaseKeepsMemory(s, t, s');
    }
  }

  lemma MutexStepKeepsMemory(s: State, t: Tid, action: Action, s': State)
    requires MemoryOk(s) && Knows(s, t) && Next(s, t, action) == Some(s') && At(s, t).RegLock?
    requires forall u: Tid :: u != t ==> Held(s', At(s', u)) == Held(s, At(s, u))
    ensures MemoryOk(s')
  {
    if action.ok {
      QuietKeepsMemory(s, t, s');
    } else {
      ReleaseKeepsMemory(s, t, s');
    }
  }

  lemma LockedStepKeepsMemory(s: State, t: Tid, action: Action, s': State)
    requires MemoryOk(s) && Knows(s, t) && Next(s, t, action) == Some(s')
    requires forall u: Tid :: u != t ==> Held(s', At(s', u)) == Held(s, At(s, u))
    requires At(s, t).RegLock? || At(s, t).RegLink? || At(s, t).RegPublish? || At(s, t).RegUnlock?
    ensures MemoryOk(s')
  {
    match At(s, t)
    case RegLock(_, _) => MutexStepKeepsMemory(s, t, action, s');
    case RegLink(_, _) => LinkStepKeepsMemory(s, t, action, s');
    case RegPublish(_, a) => PublicationKeepsMemory(s, t, a, s');
    case RegUnlock(_, _, _) => QuietKeepsMemory(s, t, s');
  }

  lemma LinkStepKeepsMemory(s: State, t: Tid, action: Action, s': State)
    requires MemoryOk(s) && Knows(s, t) && Next(s, t, action) == Some(s') && At(s, t).RegLink?
    requires forall u: Tid :: u != t ==> Held(s', At(s', u)) == Held(s, At(s, u))
    ensures MemoryOk(s')
  {
    QuietKeepsMemory(s, t, s');
  }

  lemma StepKeepsMemory(s: State, t: Tid, action: Action, s': State)
    requires MemoryOk(s) && (forall u: Tid :: Knows(s, u)) && Next(s, t, action) == Some(s')
    ensures MemoryOk(s')
  {
    OthersHold(s, t, action, s');
    assert Knows(s, t);
    if At(s, t).RegAllocateId? || At(s, t).RegAllocateDescription? || At(s, t).RegAllocateLogger? {
      AllocationStepKeepsMemory(s, t, action, s');
    } else if InRegister(At(s, t)) {
      LockedStepKeepsMemory(s, t, action, s');
    } else {
      LookupsOnlyRead(s, t, action, s');
      QuietKeepsMemory(s, t, s');
    }
  }

  lemma {:induction false} SpellsFrom(nodes: map<Addr, Node>, list: seq<Addr>, k: nat)
    requires Spells(nodes, list) && k <= |list|
    ensures Spells(nodes, list[k..])
  {
    if k > 0 {
      SpellsFrom(nodes, list[1..], k - 1);
      assert list[1..][k - 1..] == list[k..];
    }
  }

  /** While a thread is in its critical section, nobody else changes the list. */
  lemma CriticalSectionIsPrivate(s: State, t: Tid, action: Action, s': State, u: Tid)
    requires Exclusive(s) && Next(s, t, action) == Some(s') && u != t && Critical(At(s, u))
    ensures s'.head == s.head && s'.published == s.published
  {
    ListStep(s, t, action, s');
    assert s.lock == Some(u);
    assert !Critical(At(s, t));
  }

  lemma RegisterKnowledgeStays(s: State, t: Tid, action: Action, s': State, u: Tid)
    requires Exclusive(s) && MemoryOk(s) && Knows(s, t) && Knows(s, u) && u != t && Next(s, t, action) == Some(s')
    requires InRegister(At(s, u)) || At(s, u).RegDone?
    ensures Knows(s', u)
  {
    OthersStay(s, t, action, s');
    match At(s, u)
    case RegLock(_, a) => HeldLoggerStays(s, t, action, s', u, a);
    case RegLink(_, a) => HeldLoggerStays(s, t, action, s', u, a);
    case RegPublish(_, a) =>
      HeldLoggerStays(s, t, action, s', u, a);
      CriticalSectionIsPrivate(s, t, action, s', u);
    case _ =>
      ListStep(s, t, action, s');
      PublishedStay(s, t, action, s');
  }

  lemma HeldLoggerStays(s: State, t: Tid, action: Action, s': State, u: Tid, a: Addr)
    requires MemoryOk(s) && Knows(s, t) && u != t && Next(s, t, action) == Some(s') && a in s.nodes
    requires a in Held(s, At(s, u))
    ensures a in s'.nodes && s'.nodes[a] == s.nodes[a]
  {
    StepFrame(s, t, action, s');
  }

  lemma FindKnowledgeStays(s: State, t: Tid, action: Action, s': State, u: Tid)
    requires Exclusive(s) && MemoryOk(s) && Knows(s, t) && Knows(s, u) && u != t && Next(s, t, action) == Some(s')
    requires InFind(At(s, u)) || At(s, u).FindDone?
    ensures Knows(s', u)
  {
    OthersStay(s, t, action, s');
    PublishedStay(s, t, action, s');
    ListStep(s, t, action, s');
    match At(s, u)
    case FindScan(info, current) =>
      var k: nat :| Scanned(s, info.id, current, k);
      CriticalSectionIsPrivate(s, t, action, s', u);
      SameNodes(s.nodes, s'.nodes, s.published, info.id);
      SameNodes(s.nodes, s'.nodes, s.published[k..], info.id);
      assert Scanned(s', info.id, current, k);
    case FindUnlock(info, found, matches) =>
      CriticalSectionIsPrivate(s, t, action, s', u);
      SameNodes(s.nodes, s'.nodes, s.published, info.id);
    case _ =>
  }

  lemma RegisterLearns(s: State, t: Tid, action: Action, s': State)
    requires MemoryOk(s) && Knows(s, t) && Next(s, t, action) == Some(s') && InRegister(At(s, t))
    requires !s'.terminated
    ensures Knows(s', t)
  {
    match At(s, t)
    case RegAllocateDescription(_, idBuffer) =>
      assert idBuffer in Held(s, At(s, t));
      assert idBuffer in s.owner;
      assert idBuffer < s.nextAddr;
    case _ =>
  }

  lemma ScanAdvances(s: State, id: string, c: Addr, k: nat)
    requires ListOk(s) && Scanned(s, id, Some(c), k) && c in s.nodes
    ensures c in s.published
    ensures s.nodes[c].info.id == id ==> Newest(s.nodes, s.published, id) == Some(c)
    ensures s.nodes[c].info.id != id ==> Scanned(s, id, s.nodes[c].next, k + 1)
  {
    SpellsFrom(s.nodes, s.published, k);
    assert s.published[k..][0] == c == s.published[k];
    assert s.published[k..][1..] == s.published[k + 1..];
  }

  lemma FindLearns(s: State, t: Tid, action: Action, s': State)
    requires ListOk(s) && MemoryOk(s) && Knows(s, t) && Next(s, t, action) == Some(s') && InFind(At(s, t))
    requires !s'.terminated
    ensures Knows(s', t)
  {
    LookupsOnlyRead(s, t, action, s');
    match At(s, t)
    case FindLock(info) =>
      assert s.published[0..] == s.published;
      assert Scanned(s', info.id, s.head, 0);
    case FindScan(info, current) =>
      var k: nat :| Scanned(s, info.id, current, k);
      if current.Some? {
        ScanAdvances(s, info.id, current.value, k);
        if s.nodes[current.value].info.id != info.id {
          assert Scanned(s', info.id, s.nodes[current.value].next, k + 1);
        }
      }
    case _ =>
  }

  lemma TerminationChangesNothing(s: State, t: Tid, action: Action, s': State)
    requires Next(s, t, action) == Some(s') && s'.terminated
    ensures s' == s.(terminated := true)
  {
  }

  lemma StepKeepsKnowledge(s: State, t: Tid, action: Action, s': State, u: Tid)
    requires Inv(s) && Next(s, t, action) == Some(s')
    ensures Knows(s', u)
  {
    assert Knows(s, t) && Knows(s, u);
    if s'.terminated {
      TerminationChangesNothing(s, t, action, s');
      assert At(s', u) == At(s, u);
      if At(s, u).FindScan? {
        var k: nat :| Scanned(s, At(s, u).info.id, At(s, u).current, k);
        assert Scanned(s', At(s, u).info.id, At(s, u).current, k);
      }
    } else if u == t {
      if InRegister(At(s, t)) {
        RegisterLearns(s, t, action, s');
      } else if InFind(At(s, t)) {
        FindLearns(s, t, action, s');
      }
    } else if InRegister(At(s, u)) || At(s, u).RegDone? {
      RegisterKnowledgeStays(s, t, action, s', u);
    } else if InFind(At(s, u)) || At(s, u).FindDone? {
      FindKnowledgeStays(s, t, action, s', u);
    } else {
      OthersStay(s, t, action, s');
    }
  }

  lemma StepKeepsInv(s: State, t: Tid, action: Action, s': State)
    requires Inv(s) && Next(s, t, action) == Some(s')
    ensures Inv(s')
  {
    assert Knows(s, t);
    StepKeepsExclusive(s, t, action, s');
    StepKeepsList(s, t, action, s');
    StepKeepsMemory(s, t, action, s');
    StepKeepsHistory(s, t, action, s');
    forall u: Tid ensures Knows(s', u) {
      StepKeepsKnowledge(s, t, action, s', u);
    }
  }

  lemma {:induction false} RunKeepsInv(s: State, schedule: seq<(Tid, Action)>, s': State)
    requires Inv(s) && Exec(s, schedule) == Some(s')
    ensures Inv(s')
    decreases |schedule|
  {
    if schedule != [] {
      var middle := Next(s, schedule[0].0, schedule[0].1).value;
      StepKeepsInv(s, schedule[0].0, schedule[0].1, middle);
      RunKeepsInv(middle, schedule[1..], s');
    }
  }

  lemma ReachableOk(schedule: seq<(Tid, Action)>, s: State)
    requires Exec(INITIAL, schedule) == Some(s)
    ensures Inv(s)
  {
    InitialOk();
    RunKeepsInv(INITIAL, schedule, s);
  }

  lemma {:induction false} SpellsDistinct(nodes: map<Addr, Node>, list: seq<Addr>, i: nat)
    requires Spells(nodes, list) && i < |list|
    ensures list[i] in nodes && nodes[list[i]].next == if i + 1 < |list| then Some(list[i + 1]) else None
  {
    SpellsFrom(nodes, list, i);
    assert list[i..][0] == list[i];
    assert list[i..][1..] == list[i + 1..];
  }

  /** In every interleaving the list is acyclic and holds exactly the loggers published so far,
      newest first: following the links from the head visits each of them once and then ends. */
  lemma ListIsPublished(schedule: seq<(Tid, Action)>, s: State)
    requires Exec(INITIAL, schedule) == Some(s)
    ensures s.head == First(s.published)
    ensures forall i :: 0 <= i < |s.published| ==>
              && s.published[i] in s.nodes
              && s.nodes[s.published[i]].next == if i + 1 < |s.published| then Some(s.published[i + 1]) else None
    ensures forall i, j :: 0 <= i < j < |s.published| ==> s.published[i] != s.published[j]
    ensures Replay(s.history) == Some(Listing(s.nodes, s.published))
  {
    ReachableOk(schedule, s);
    forall i | 0 <= i < |s.published|
      ensures s.published[i] in s.nodes
              && s.nodes[s.published[i]].next == if i + 1 < |s.published| then Some(s.published[i + 1]) else None
    {
      SpellsDistinct(s.nodes, s.published, i);
    }
  }

  /** The published list of `s` is still there in `s'`, at the old end, with the same nodes. */
  ghost predicate Keeps(s: State, s': State) {
    && (exists newer :: s'.published == newer + s.published)
    && forall a :: a in s.published ==> a in s.nodes && a in s'.nodes && s'.nodes[a] == s.nodes[a]
  }

  lemma StepKeepsPublished(s: State, t: Tid, action: Action, s': State)
    requires Inv(s) && Next(s, t, action) == Some(s')
    ensures Keeps(s, s')
  {
    assert Knows(s, t);
    ListStep(s, t, action, s');
    PublishedStay(s, t, action, s');
    assert s'.published == [] + s.published || s'.published == [At(s, t).logger] + s.published;
  }

  lemma KeepsOn(s: State, middle: State, s': State)
    requires Keeps(s, middle) && Keeps(middle, s')
    ensures Keeps(s, s')
  {
    var newer :| middle.published == newer + s.published;
    var newest :| s'.published == newest + middle.published;
    assert s'.published == (newest + newer) + s.published;
  }

  /** A published logger stays where it is, unchanged, for good. */
  lemma {:induction false} PublishedForever(s: State, schedule: seq<(Tid, Action)>, s': State)
    requires Inv(s) && Exec(s, schedule) == Some(s')
    ensures Keeps(s, s')
    decreases |schedule|
  {
    if schedule == [] {
      assert s.published == [] + s.published;
    } else {
      var middle := Next(s, schedule[0].0, schedule[0].1).value;
      StepKeepsInv(s, schedule[0].0, schedule[0].1, middle);
      StepKeepsPublished(s, schedule[0].0, schedule[0].1, middle);
      PublishedForever(middle, schedule[1..], s');
      KeepsOn(s, middle, s');
    }
  }

  // ---- operations take effect between their call and their return ----

  /** The operation that a thread is in, or has just returned from, has entered the history. */
  predicate TookEffect(pc: Pc) {
    pc.RegUnlock? || pc.RegDone? || pc.FindDecide? || pc.FindDone?
  }

  /** Since the history had length `n`, thread `t` has not been at an operation that is older. */
  ghost predicate Since(n: nat, s: State, t: Tid) {
    n <= |s.history| && (TookEffect(At(s, t)) ==> n <= At(s, t).at)
  }

  lemma OwnStepKeepsSince(n: nat, s: State, t: Tid, action: Action, s': State)
    requires Since(n, s, t) && Next(s, t, action) == Some(s')
    ensures TookEffect(At(s', t)) ==> n <= At(s', t).at
  {
    if InRegister(At(s, t)) {
      RegisterKeepsSince(n, s, t, action.ok, s');
    }
  }

  lemma RegisterKeepsSince(n: nat, s: State, t: Tid, ok: bool, s': State)
    requires Since(n, s, t) && RegisterNext(s, t, At(s, t), ok) == Some(s')
    ensures TookEffect(At(s', t)) ==> n <= At(s', t).at
  {
  }

  lemma StepKeepsSince(n: nat, s: State, u: Tid, action: Action, s': State, t: Tid)
    requires Since(n, s, t) && Next(s, u, action) == Some(s')
    ensures Since(n, s', t)
  {
    ListStep(s, u, action, s');
    if u == t {
      OwnStepKeepsSince(n, s, t, action, s');
    } else {
      OthersStay(s, u, action, s');
    }
  }

  lemma {:induction false} RunKeepsSince(n: nat, s: State, schedule: seq<(Tid, Action)>, s': State, t: Tid)
    requires Since(n, s, t) && Exec(s, schedule) == Some(s')
    ensures Since(n, s', t)
    decreases |schedule|
  {
    if schedule != [] {
      var middle := Next(s, schedule[0].0, schedule[0].1).value;
      StepKeepsSince(n, s, schedule[0].0, schedule[0].1, middle, t);
      RunKeepsSince(n, middle, schedule[1..], s', t);
    }
  }

  lemma {:induction false} RunGrowsHistory(s: State, schedule: seq<(Tid, Action)>, s': State)
    requires Exec(s, schedule) == Some(s')
    ensures s.history <= s'.history
    decreases |schedule|
  {
    if schedule != [] {
      var middle := Next(s, schedule[0].0, schedule[0].1).value;
      ListStep(s, schedule[0].0, schedule[0].1, middle);
      RunGrowsHistory(middle, schedule[1..], s');
    }
  }

  /** `s0` is reachable, `s` is reached from it, and thread `t` was not past the effect of an
      operation at `s0`: whatever operation it is past at `s`, its effect came after `s0`. */
  ghost predicate Later(before: seq<(Tid, Action)>, s0: State, after: seq<(Tid, Action)>, s: State, t: Tid) {
    Exec(INITIAL, before) == Some(s0) && Exec(s0, after) == Some(s) && !TookEffect(At(s0, t))
  }

  lemma LaterFacts(before: seq<(Tid, Action)>, s0: State, after: seq<(Tid, Action)>, s: State, t: Tid)
    requires Later(before, s0, after, s, t)
    ensures Inv(s0) && Inv(s) && Knows(s, t) && s0.history <= s.history && Keeps(s0, s)
    ensures TookEffect(At(s, t)) ==> |s0.history| <= At(s, t).at
  {
    ReachableOk(before, s0);
    RunKeepsInv(s0, after, s);
    RunKeepsSince(|s0.history|, s0, after, s, t);
    RunGrowsHistory(s0, after, s);
    PublishedForever(s0, after, s);
  }

  /** The data asked for are fixed by the call: until it returns no step of any thread alters them. */
  lemma CallKeepsInfo(s: State, u: Tid, action: Action, s': State, t: Tid)
    requires Next(s, u, action) == Some(s') && (InRegister(At(s, t)) || InFind(At(s, t)))
    ensures !At(s', t).Idle? && At(s', t).info == At(s, t).info
    ensures InRegister(At(s, t)) ==> InRegister(At(s', t)) || At(s', t).RegDone? || At(s', t).RegFailed?
    ensures InFind(At(s, t)) ==> InFind(At(s', t)) || At(s', t).FindDone?
  {
    if u != t {
      OthersStay(s, u, action, s');
    } else if InRegister(At(s, t)) {
      RegisterKeepsInfo(s, t, action.ok, s');
    }
  }

  lemma RegisterKeepsInfo(s: State, t: Tid, ok: bool, s': State)
    requires RegisterNext(s, t, At(s, t), ok) == Some(s')
    ensures !At(s', t).Idle? && At(s', t).info == At(s, t).info
    ensures InRegister(At(s', t)) || At(s', t).RegDone? || At(s', t).RegFailed?
  {
  }

  lemma {:induction false} ReplayPrefix(history: seq<Op>, k: nat)
    requires Replay(history).Some? && k < |history|
    ensures Replay(history[..k]).Some?
    ensures history[k].Finds? ==> history[k].found == Lookup(Replay(history[..k]).value, history[k].id)
    decreases |history|
  {
    if k < |history| - 1 {
      var shorter := history[..|history| - 1];
      ReplayPrefix(shorter, k);
      assert shorter[..k] == history[..k];
    }
  }

  /** Find is atomic: when it returns a logger, that logger has exactly the id, description and
      threshold asked for, and it is what an atomic lookup of the newest entry with the id would
      have found at one point of the history, which lies after any state `s0` in which the lookup
      had not yet taken effect, such as that of its call. */
  lemma FindIsAtomic(before: seq<(Tid, Action)>, s0: State, after: seq<(Tid, Action)>, s: State, t: Tid)
    requires Later(before, s0, after, s, t) && At(s, t).FindDone?
    ensures var found := At(s, t);
            && |s0.history| <= found.at < |s.history| && Replay(s.history[..found.at]).Some?
            && Lookup(Replay(s.history[..found.at]).value, found.info.id) == Some(found.logger)
            && found.logger in s.published && found.logger in s.nodes
            && s.nodes[found.logger].info == found.info
  {
    LaterFacts(before, s0, after, s, t);
    ReplayPrefix(s.history, At(s, t).at);
  }

  /** Find gives up, and with it the process, exactly when that atomic lookup found nothing or a
      logger with another description or threshold. */
  lemma FindDecides(before: seq<(Tid, Action)>, s0: State, after: seq<(Tid, Action)>, s: State, t: Tid)
    requires Later(before, s0, after, s, t) && !s.terminated && At(s, t).FindDecide?
    ensures var pc := At(s, t);
            && |s0.history| <= pc.at < |s.history| && Replay(s.history[..pc.at]).Some?
            && pc.found == Lookup(Replay(s.history[..pc.at]).value, pc.info.id)
            && (pc.found.Some? ==> pc.found.value in s.nodes)
            && Next(s, t, Proceed(true)).Some?
            && (Next(s, t, Proceed(true)).value.terminated
                <==> pc.found.None? || s.nodes[pc.found.value].info != pc.info)
  {
    LaterFacts(before, s0, after, s, t);
    ReplayPrefix(s.history, At(s, t).at);
  }

  /** Register is atomic: when it returns a logger, that logger has exactly the id, description and
      threshold asked for, and it was published at one point of the history, after any state `s0`
      in which it was not yet. */
  lemma RegisterPublishes(before: seq<(Tid, Action)>, s0: State, after: seq<(Tid, Action)>, s: State, t: Tid)
    requires Later(before, s0, after, s, t) && At(s, t).RegDone?
    ensures var done := At(s, t);
            && |s0.history| <= done.at < |s.history|
            && s.history[done.at] == Registers(done.logger, done.info)
            && done.logger in s.published && done.logger in s.nodes
            && s.nodes[done.logger].info == done.info
  {
    LaterFacts(before, s0, after, s, t);
  }

  // ---- what was created is found ----

  /** An entry that a history has built stays in what longer histories build. */
  lemma {:induction false} ReplayKeeps(history: seq<Op>, k: nat, entry: (Addr, Info))
    requires Replay(history).Some? && k <= |history|
    requires Replay(history[..k]).Some? && entry in Replay(history[..k]).value
    ensures entry in Replay(history).value
    decreases |history|
  {
    if k == |history| {
      assert history[..k] == history;
    } else {
      var shorter := history[..|history| - 1];
      assert shorter[..k] == history[..k];
      ReplayKeeps(shorter, k, entry);
    }
  }

  lemma {:induction false} ListingHas(nodes: map<Addr, Node>, list: seq<Addr>, a: Addr)
    requires a in list && a in nodes
    ensures (a, nodes[a].info) in Listing(nodes, list)
  {
    if list[0] != a {
      ListingHas(nodes, list[1..], a);
    }
  }

  lemma {:induction false} ListingOnly(nodes: map<Addr, Node>, list: seq<Addr>, entry: (Addr, Info))
    requires entry in Listing(nodes, list)
    ensures entry.0 in list && entry.0 in nodes && entry.1 == nodes[entry.0].info
  {
    if list[0] !in nodes || entry != (list[0], nodes[list[0]].info) {
      ListingOnly(nodes, list[1..], entry);
    }
  }

  /** Where a logger is the only one with its id, looking the id up finds it. */
  lemma {:induction false} LookupOfOnly(entries: seq<(Addr, Info)>, a: Addr, info: Info)
    requires (a, info) in entries
    requires forall e :: e in entries && e.1.id == info.id ==> e.0 == a
    ensures Lookup(entries, info.id) == Some(a)
  {
    if entries[0].1.id != info.id {
      LookupOfOnly(entries[1..], a, info);
    }
  }

  /** No other published logger has the id. */
  ghost predicate OnlyOne(s: State, a: Addr, id: string) {
    forall b :: b in s.published && b in s.nodes && s.nodes[b].info.id == id ==> b == a
  }

  lemma LookupBetween(s: State, n: nat, at: nat, a: Addr, info: Info)
    requires Inv(s) && n <= at < |s.history| && OnlyOne(s, a, info.id)
    requires Replay(s.history[..n]).Some? && (a, info) in Replay(s.history[..n]).value
    requires Replay(s.history[..at]).Some?
    ensures Lookup(Replay(s.history[..at]).value, info.id) == Some(a)
  {
    var entries := Replay(s.history[..at]).value;
    assert s.history[..at][..n] == s.history[..n];
    ReplayKeeps(s.history[..at], n, (a, info));
    forall e | e in entries && e.1.id == info.id ensures e.0 == a {
      ReplayKeeps(s.history, at, e);
      ListingOnly(s.nodes, s.published, e);
    }
    LookupOfOnly(entries, a, info);
  }

  /** What the registry is for. A logger that is published when a lookup with its id, description
      and threshold has not yet taken effect, and that is the only one with its id, is what the
      lookup returns: the lookup finds it, and does not end the process. */
  lemma RegisteredIsFound(before: seq<(Tid, Action)>, s0: State, after: seq<(Tid, Action)>, s: State, t: Tid, a: Addr)
    requires Later(before, s0, after, s, t) && !s.terminated
    requires a in s0.published && a in s0.nodes && OnlyOne(s, a, s0.nodes[a].info.id)
    requires At(s, t).FindDecide? && At(s, t).info == s0.nodes[a].info
    ensures var info := s0.nodes[a].info;
            && At(s, t).found == Some(a)
            && Next(s, t, Proceed(true)).Some?
            && !Next(s, t, Proceed(true)).value.terminated
            && At(Next(s, t, Proceed(true)).value, t) == FindDone(info, a, At(s, t).at)
  {
    var info := s0.nodes[a].info;
    LaterFacts(before, s0, after, s, t);
    FindDecides(before, s0, after, s, t);
    assert s.history[..|s0.history|] == s0.history;
    ListingHas(s0.nodes, s0.published, a);
    LookupBetween(s, |s0.history|, At(s, t).at, a, info);
  }

  /** What a lookup returned is the logger that was already there, when it is the only one. */
  lemma ReturnedIsTheOne(before: seq<(Tid, Action)>, s0: State, after: seq<(Tid, Action)>, s: State, t: Tid, a: Addr)
    requires Later(before, s0, after, s, t) && At(s, t).FindDone?
    requires a in s0.published && a in s0.nodes && OnlyOne(s, a, s0.nodes[a].info.id)
    requires At(s, t).info == s0.nodes[a].info
    ensures At(s, t).logger == a
  {
    FindIsAtomic(before, s0, after, s, t);
    LaterFacts(before, s0, after, s, t);
    assert s.history[..|s0.history|] == s0.history;
    ListingHas(s0.nodes, s0.published, a);
    LookupBetween(s, |s0.history|, At(s, t).at, a, s0.nodes[a].info);
  }

  lemma OnlyDecisionsEnd(s: State, t: Tid)
    requires InFind(At(s, t)) && !At(s, t).FindDecide? && Next(s, t, Proceed(true)).Some?
    ensures Next(s, t, Proceed(true)).value.terminated == s.terminated
  {
  }

  lemma {:induction false} ExecAppend(s: State, first: seq<(Tid, Action)>, middle: State, second: seq<(Tid, Action)>)
    requires Exec(s, first) == Some(middle)
    ensures Exec(s, first + second) == Exec(middle, second)
    decreases |first|
  {
    if first == [] {
      assert first + second == second;
    } else {
      assert (first + second)[1..] == first[1..] + second;
      ExecAppend(Next(s, first[0].0, first[0].1).value, first[1..], middle, second);
    }
  }

  lemma CreatedStays(before: seq<(Tid, Action)>, sc: State, between: seq<(Tid, Action)>, s0: State, u: Tid)
    requires Exec(INITIAL, before) == Some(sc) && At(sc, u).RegDone? && Exec(sc, between) == Some(s0)
    ensures Exec(INITIAL, before + between) == Some(s0)
    ensures At(sc, u).logger in s0.published && At(sc, u).logger in s0.nodes
    ensures s0.nodes[At(sc, u).logger].info == At(sc, u).info
  {
    ReachableOk(before, sc);
    assert Knows(sc, u);
    ExecAppend(INITIAL, before, sc, between);
    PublishedForever(sc, between, s0);
  }

  /** Created once, found ever after. Thread `u` has returned from a creation at `sc`; from some
      later state `s0` on thread `t`, which may be the same, looks up the same id, description and
      threshold. No step of the lookup ends the process, unless the mutex fails, and what it returns
      is the logger that was created. Ids are unique, as callers promise. */
  lemma CreatedIsRetrieved(before: seq<(Tid, Action)>, sc: State, between: seq<(Tid, Action)>, s0: State,
                           after: seq<(Tid, Action)>, s: State, u: Tid, t: Tid)
    requires Exec(INITIAL, before) == Some(sc) && At(sc, u).RegDone?
    requires Exec(sc, between) == Some(s0) && !TookEffect(At(s0, t))
    requires Exec(s0, after) == Some(s) && !s.terminated && OnlyOne(s, At(sc, u).logger, At(sc, u).info.id)
    requires (InFind(At(s, t)) || At(s, t).FindDone?) && At(s, t).info == At(sc, u).info
    ensures InFind(At(s, t)) && Next(s, t, Proceed(true)).Some? ==> !Next(s, t, Proceed(true)).value.terminated
    ensures At(s, t).FindDone? ==> At(s, t).logger == At(sc, u).logger
  {
    var a := At(sc, u).logger;
    CreatedStays(before, sc, between, s0, u);
    if At(s, t).FindDecide? {
      RegisteredIsFound(before + between, s0, after, s, t, a);
    } else if At(s, t).FindDone? {
      ReturnedIsTheOne(before + between, s0, after, s, t, a);
    } else if Next(s, t, Proceed(true)).Some? {
      OnlyDecisionsEnd(s, t);
    }
  }

  // ---- progress ----

  /** How many entries a scan has not passed yet. */
  function Ahead(list: seq<Addr>, current: Option<Addr>): nat {
    if list == [] || current == Some(list[0]) then |list| else Ahead(list[1..], current)
  }

  lemma {:induction false} AheadOf(list: seq<Addr>, k: nat)
    requires k <= |list| && forall i, j :: 0 <= i < j < |list| ==> list[i] != list[j]
    ensures Ahead(list, First(list[k..])) == |list| - k
  {
    if k == 0 {
      assert list[0..] == list;
    } else {
      assert list[1..][k - 1..] == list[k..];
      assert k < |list| ==> First(list[k..]) == Some(list[k]);
      AheadOf(list[1..], k - 1);
    }
  }

  function Budget(s: State, t: Tid): nat {
    if At(s, t).FindScan? then 1 + Ahead(s.published, At(s, t).current) else 0
  }

  lemma ScanAdvancesBudget(s: State, action: Action, s': State, t: Tid, k: nat)
    requires Inv(s) && Next(s, t, action) == Some(s') && At(s, t).FindScan?
    requires Scanned(s, At(s, t).info.id, At(s, t).current, k)
    ensures Budget(s', t) <= |s.published| - k
  {
    var info, current := At(s, t).info, At(s, t).current;
    if current.Some? && current.value in s.nodes && s.nodes[current.value].info.id != info.id {
      ScanAdvances(s, info.id, current.value, k);
      AheadOf(s.published, k + 1);
    }
  }

  /** Every step of a scanning thread brings its scan nearer to its end, and no step of another
      thread moves that end away. */
  lemma ScanShrinks(s: State, u: Tid, action: Action, s': State, t: Tid)
    requires Inv(s) && Next(s, u, action) == Some(s') && At(s, t).FindScan?
    ensures Budget(s, t) <= |s.published| + 1
    ensures if u == t then Budget(s', t) < Budget(s, t) else At(s', t) == At(s, t) && Budget(s', t) == Budget(s, t)
  {
    assert Knows(s, t);
    var k: nat :| Scanned(s, At(s, t).info.id, At(s, t).current, k);
    AheadOf(s.published, k);
    if u == t {
      ScanAdvancesBudget(s, action, s', t, k);
    } else {
      OthersStay(s, u, action, s');
      CriticalSectionIsPrivate(s, u, action, s', t);
    }
  }

  /** Thread `t` is scanning at every state of the run but possibly the last. */
  predicate Scanning(s: State, schedule: seq<(Tid, Action)>, t: Tid)
    decreases |schedule|
  {
    schedule == []
    || (At(s, t).FindScan?
        && match Next(s, schedule[0].0, schedule[0].1)
           case None => false
           case Some(s') => Scanning(s', schedule[1..], t))
  }

  function StepsOf(schedule: seq<(Tid, Action)>, t: Tid): nat {
    if schedule == [] then 0 else (if schedule[0].0 == t then 1 else 0) + StepsOf(schedule[1..], t)
  }

  lemma {:induction false} ScanWithinBudget(s: State, schedule: seq<(Tid, Action)>, t: Tid)
    requires Inv(s) && Scanning(s, schedule, t) && schedule != []
    ensures StepsOf(schedule, t) <= Budget(s, t) <= |s.published| + 1
    decreases |schedule|
  {
    var u, action, rest := schedule[0].0, schedule[0].1, schedule[1..];
    var s' := Next(s, u, action).value;
    ScanShrinks(s, u, action, s', t);
    StepKeepsInv(s, u, action, s');
    if rest != [] {
      ScanWithinBudget(s', rest, t);
    }
  }

  /** Every scan ends: in any interleaving a lookup takes at most one step for each published logger
      and one more, however the other threads move in between. */
  lemma ScanEnds(before: seq<(Tid, Action)>, s: State, schedule: seq<(Tid, Action)>, t: Tid)
    requires Exec(INITIAL, before) == Some(s) && Scanning(s, schedule, t)
    ensures StepsOf(schedule, t) <= |s.published| + 1
  {
    ReachableOk(before, s);
    if schedule != [] {
      ScanWithinBudget(s, schedule, t);
    }
  }

  lemma BusyThreadsMove(s: State, t: Tid)
    requires Inv(s) && !s.terminated && (InRegister(At(s, t)) || InFind(At(s, t)))
    requires s.lock.None? || Critical(At(s, t)) || !(At(s, t).RegLock? || At(s, t).FindLock?)
    ensures Next(s, t, Proceed(true)).Some?
  {
    assert Knows(s, t);
    if At(s, t).FindScan? {
      var k: nat :| Scanned(s, At(s, t).info.id, At(s, t).current, k);
      if At(s, t).current.Some? {
        assert At(s, t).current.value == s.published[k..][0] == s.published[k];
        assert s.published[k] in s.published;
      }
    }
  }

  /** No deadlock: in every interleaving a thread inside an operation can move, or it waits for the
      mutex and the thread that holds it can move. */
  lemma NoDeadlock(schedule: seq<(Tid, Action)>, s: State, t: Tid)
    requires Exec(INITIAL, schedule) == Some(s) && !s.terminated && (InRegister(At(s, t)) || InFind(At(s, t)))
    ensures || Next(s, t, Proceed(true)).Some?
            || ((At(s, t).RegLock? || At(s, t).FindLock?) && s.lock.Some? && s.lock != Some(t)
                && Next(s, s.lock.value, Proceed(true)).Some?)
  {
    ReachableOk(schedule, s);
    if s.lock.Some? {
      assert Critical(At(s, s.lock.value));
      BusyThreadsMove(s, s.lock.value);
    }
    if s.lock.None? || Critical(At(s, t)) || !(At(s, t).RegLock? || At(s, t).FindLock?) {
      BusyThreadsMove(s, t);
    }
  }

  /** A thread holds a block exactly when it owns it. */
  ghost predicate HeldByOwner(s: State, b: Addr) {
    && (forall t: Tid :: b in Held(s, At(s, t)) ==> b in s.owner && s.owner[b] == InFlight(t))
    && (b in s.owner && s.owner[b].InFlight? ==> b in Held(s, At(s, s.owner[b].t)))
  }

  /** A published logger has a block exactly when it owns it. */
  ghost predicate PublishedByOwner(s: State, b: Addr) {
    && (forall a :: a in s.published && a in s.nodes && b in Blocks(s.nodes[a], a) ==>
          b in s.owner && s.owner[b] == Published(a))
    && (b in s.owner && s.owner[b].Published? ==>
          var a := s.owner[b].logger; a in s.published && a in s.nodes && b in Blocks(s.nodes[a], a))
  }

  lemma HeldIsOwned(s: State, b: Addr)
    requires HeldOk(s)
    ensures HeldByOwner(s, b)
  {
  }

  lemma PublishedIsOwned(s: State, b: Addr)
    requires OwnedOk(s)
    ensures PublishedByOwner(s, b)
  {
    if b in s.owner && s.owner[b].Published? {
      assert b in s.owner && s.owner[b] == Published(s.owner[b].logger);
    }
  }

  /** Conservation: in every interleaving every block ever allocated is freed, or held by one
      thread in Register, or part of one published logger, and only one of these. */
  lemma {:induction false} EveryBlockAccounted(schedule: seq<(Tid, Action)>, s: State, b: Addr)
    requires Exec(INITIAL, schedule) == Some(s) && b < s.nextAddr
    ensures b in s.freed <==> b !in s.owner
    ensures HeldByOwner(s, b) && PublishedByOwner(s, b)
  {
    ReachableOk(schedule, s);
    HeldIsOwned(s, b);
    PublishedIsOwned(s, b);
  }
}
