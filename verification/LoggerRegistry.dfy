/** The logger registry as objects: a prepend-only linked list whose nodes and buffers come from a
    heap that can run out, guarded by a mutex that can fail. One caller at a time; the module
    RegistryInterleaving treats several. */
module LoggerRegistries {
  import opened Logging
  import opened LogLevels
  import opened Wrappers

  /** The blocks of one logger: the object and the two buffers it owns. */
  datatype Blocks = Blocks(idBuffer: nat, descriptionBuffer: nat, object_: nat) {
    function All(): set<nat> {
      {idBuffer, descriptionBuffer, object_}
    }

    predicate Distinct() {
      idBuffer != descriptionBuffer && idBuffer != object_ && descriptionBuffer != object_
    }
  }

  /** The free store: which blocks are allocated, and which have been freed. */
  class Heap {
    var next: nat
    var live: set<nat>
    var freed: set<nat>

    ghost predicate Valid()
      reads this
    {
      live !! freed && forall b: nat :: b < next <==> b in live || b in freed
    }

    constructor ()
      ensures Valid() && live == {} && freed == {}
    {
      next, live, freed := 0, {}, {};
    }

    /** `new (std::nothrow)`: a block never handed out before, or nothing. */
    method Allocate() returns (block: Option<nat>)
      requires Valid()
      modifies this
      ensures Valid() && freed == old(freed)
      ensures block.None? ==> live == old(live) && next == old(next)
      ensures block.Some? ==>
                block.value == old(next) && next == old(next) + 1 && live == old(live) + {block.value}
    {
      var available: bool := *;
      if !available {
        return None;
      }
      block := Some(next);
      live := live + {next};
      next := next + 1;
    }

    /** `delete`: only of a block that is allocated. */
    method Free(block: nat)
      requires Valid() && block in live
      modifies this
      ensures Valid() && next == old(next)
      ensures live == old(live) - {block} && freed == old(freed) + {block}
    {
      live := live - {block};
      freed := freed + {block};
    }

    /** `delete` of a logger, which frees its buffers with it. */
    method Delete(blocks: Blocks)
      requires Valid() && blocks.Distinct() && blocks.All() <= live
      modifies this
      ensures Valid() && next == old(next)
      ensures live == old(live) - blocks.All() && freed == old(freed) + blocks.All()
    {
      Free(blocks.object_);
      Free(blocks.descriptionBuffer);
      Free(blocks.idBuffer);
    }
  }

  datatype Registration = Registered(logger: Logger) | OperationFailed | Terminated
  datatype Lookup = Found(logger: Logger) | LookupTerminated

  /** The first logger of a list with an id. */
  function Newest(list: seq<Logger>, id: string): Option<Logger> {
    if list == [] then None else if list[0].contextId == id then Some(list[0]) else Newest(list[1..], id)
  }

  lemma {:induction false} NewestIsFirst(list: seq<Logger>, id: string)
    ensures match Newest(list, id)
            case None => forall i :: 0 <= i < |list| ==> list[i].contextId != id
            case Some(l) => exists k :: 0 <= k < |list| && list[k] == l && l.contextId == id
                                        && forall i :: 0 <= i < k ==> list[i].contextId != id
  {
    if list != [] && list[0].contextId != id {
      NewestIsFirst(list[1..], id);
      if Newest(list, id).None? {
        forall i | 0 <= i < |list| ensures list[i].contextId != id {
          if i > 0 {
            assert list[i] == list[1..][i - 1];
          }
        }
      } else {
        var k :| 0 <= k < |list[1..]| && list[1..][k] == Newest(list, id).value
                 && forall i :: 0 <= i < k ==> list[1..][i].contextId != id;
        assert list[k + 1] == Newest(list, id).value;
        forall i | 0 <= i < k + 1 ensures list[i].contextId != id {
          if i > 0 {
            assert list[i] == list[1..][i - 1];
          }
        }
      }
    }
  }

  lemma {:induction false} NewestSkips(list: seq<Logger>, id: string, k: nat)
    requires k <= |list| && forall i :: 0 <= i < k ==> list[i].contextId != id
    ensures Newest(list, id) == Newest(list[k..], id)
  {
    if k > 0 {
      NewestSkips(list[1..], id, k - 1);
      assert list[1..][k - 1..] == list[k..];
    } else {
      assert list[0..] == list;
    }
  }

  function First(list: seq<Logger>): Logger? {
    if list == [] then null else list[0]
  }

  /** The links of the loggers spell out the list. */
  ghost predicate Linked(list: seq<Logger>)
    reads list
  {
    list == [] || (list[0].next == First(list[1..]) && Linked(list[1..]))
  }

  lemma {:induction false} LinkedFrom(list: seq<Logger>, k: nat)
    requires Linked(list) && k <= |list|
    ensures Linked(list[k..])
  {
    if k > 0 {
      LinkedFrom(list[1..], k - 1);
      assert list[1..][k - 1..] == list[k..];
    }
  }

  /** The loggers of a list are separate, and each has three allocated blocks of its own. */
  ghost predicate Separate(list: seq<Logger>, blocks: map<Logger, Blocks>, live: set<nat>) {
    && (forall i, j :: 0 <= i < j < |list| ==> list[i] != list[j])
    && blocks.Keys == (set l | l in list)
    && (forall l :: l in list ==> blocks[l].Distinct() && blocks[l].All() <= live)
    && (forall l, m :: l in list && m in list && l != m ==> blocks[l].All() !! blocks[m].All())
  }

  /** The blocks of a list of loggers. */
  ghost function Owned(list: seq<Logger>, blocks: map<Logger, Blocks>): set<nat>
    requires forall l :: l in list ==> l in blocks
  {
    set l, b | l in list && b in blocks[l].All() :: b
  }

  lemma NoneOwned(blocks: map<Logger, Blocks>)
    ensures Owned([], blocks) == {}
  {
  }

  lemma GoneGrows(live: set<nat>, freed: set<nat>, gone: set<nat>, released: set<nat>, rest: set<nat>)
    ensures live - gone - released == live - (gone + released)
    ensures freed + gone + released == freed + (gone + released)
    ensures gone + (released + rest) == (gone + released) + rest
  {
  }

  lemma SeparateCons(list: seq<Logger>, blocks: map<Logger, Blocks>, live: set<nat>, l: Logger, b: Blocks)
    requires Separate(list, blocks, live) && l !in list && b.Distinct() && b.All() !! live
    ensures Separate([l] + list, blocks[l := b], live + b.All())
    ensures forall m :: m in list ==> blocks[l := b][m] == blocks[m]
  {
    assert forall m :: m in [l] + list <==> m == l || m in list;
    assert forall m :: m in list ==> blocks[m].All() <= live;
  }

  lemma SeparateRest(list: seq<Logger>, blocks: map<Logger, Blocks>, live: set<nat>)
    requires Separate(list, blocks, live) && list != []
    ensures list[0] in blocks && blocks[list[0]].All() <= live
    ensures Separate(list[1..], blocks - {list[0]}, live - blocks[list[0]].All())
    ensures Owned(list, blocks) == Owned(list[1..], blocks - {list[0]}) + blocks[list[0]].All()
    ensures Owned(list[1..], blocks - {list[0]}) !! blocks[list[0]].All()
  {
    var first, rest := list[0], list[1..];
    assert forall m :: m in list <==> m == first || m in rest;
    assert first !in rest;
    forall b ensures b in Owned(list, blocks) <==> b in Owned(rest, blocks - {first}) || b in blocks[first].All() {
      if b in Owned(list, blocks) {
        var l :| l in list && b in blocks[l].All();
        assert l == first || (l in rest && (blocks - {first})[l] == blocks[l]);
      }
    }
  }

  class LoggerRegistry {
    const heap: Heap
    const sink: Sink
    const provider: MetadataProvider
    var head: Logger?
    var blocks: map<Logger, Blocks>

    /** The published loggers, newest first. */
    ghost var list: seq<Logger>

    /** The links spell out the list, every logger of it is a separate object with three blocks of
        its own, all of them allocated. */
    ghost predicate Valid()
      reads this, heap, list
    {
      && heap.Valid()
      && head == First(list)
      && Linked(list)
      && Separate(list, blocks, heap.live)
    }

    constructor (heap: Heap, sink: Sink, provider: MetadataProvider)
      requires heap.Valid()
      ensures Valid() && list == []
      ensures this.heap == heap && this.sink == sink && this.provider == provider
    {
      this.heap := heap;
      this.sink := sink;
      this.provider := provider;
      head := null;
      blocks := map[];
      list := [];
    }

    /** Creates and publishes a logger. Whichever step fails, the list is untouched and every block
        allocated on the way is free again. */
    method Register(contextId: string, description: string, threshold: LogLevel) returns (r: Registration)
      requires Valid()
      modifies this, heap
      ensures Valid()
      ensures threshold > VERBOSE ==> r == Terminated
      ensures r.OperationFailed? || threshold > VERBOSE ==>
                list == old(list) && head == old(head) && heap.live == old(heap.live)
      ensures r.Registered? || (r.Terminated? && threshold <= VERBOSE) ==>
                && |list| == |old(list)| + 1 && list[1..] == old(list) && fresh(list[0])
                && list[0].contextId == contextId && list[0].description == description
                && list[0].threshold == threshold && list[0].sink == sink && list[0].provider == provider
                && heap.live == old(heap.live) + blocks[list[0]].All()
                && blocks[list[0]].All() !! old(heap.live)
                && heap.freed == old(heap.freed)
      ensures r.Registered? ==> r.logger == list[0]
      ensures forall l :: l in old(list) ==> blocks[l] == old(blocks)[l]
    {
      if threshold > VERBOSE {
        return Terminated;
      }
      var idBuffer := heap.Allocate();
      if idBuffer.None? {
        return OperationFailed;
      }
      var descriptionBuffer := heap.Allocate();
      if descriptionBuffer.None? {
        heap.Free(idBuffer.value);
        return OperationFailed;
      }
      var object_ := heap.Allocate();
      if object_.None? {
        heap.Free(descriptionBuffer.value);
        heap.Free(idBuffer.value);
        return OperationFailed;
      }
      var logger := new Logger(contextId, description, threshold, sink, provider);
      var locked: bool := *;
      var owned := Blocks(idBuffer.value, descriptionBuffer.value, object_.value);
      if !locked {
        heap.Delete(owned);
        return OperationFailed;
      }
      SeparateCons(list, blocks, old(heap.live), logger, owned);
      logger.next := head;
      assert Linked(list);
      head := logger;
      blocks := blocks[logger := owned];
      list := [logger] + list;
      assert list[1..] == old(list);
      assert heap.live == old(heap.live) + owned.All();
      var unlocked: bool := *;
      if !unlocked {
        return Terminated;
      }
      return Registered(logger);
    }

    /** Looks a logger up. With a working mutex it answers exactly when the newest logger with the
        id has the description and the threshold asked for; otherwise the process ends. It changes
        nothing. */
    method Find(contextId: string, description: string, threshold: LogLevel) returns (r: Lookup, mutexFailed: bool)
      requires Valid()
      ensures mutexFailed ==> r == LookupTerminated
      ensures !mutexFailed ==>
                match Newest(list, contextId)
                case None => r == LookupTerminated
                case Some(l) =>
                  r == if l.description == description && l.threshold == threshold then Found(l) else LookupTerminated
    {
      mutexFailed := *;
      if mutexFailed {
        return LookupTerminated, true;
      }
      var found: Logger? := null;
      var current := head;
      ghost var k := 0;
      while current != null
        invariant 0 <= k <= |list|
        invariant current == First(list[k..])
        invariant found == null
        invariant forall i :: 0 <= i < k ==> list[i].contextId != contextId
        decreases |list| - k
      {
        if current.contextId == contextId {
          found := current;
          break;
        }
        LinkedFrom(list, k);
        assert list[k..][1..] == list[k + 1..];
        current := current.next;
        k := k + 1;
      }
      NewestSkips(list, contextId, k);
      var matches := found != null && found.description == description && found.threshold == threshold;
      mutexFailed := *;
      if mutexFailed {
        return LookupTerminated, true;
      }
      if !matches {
        return LookupTerminated, false;
      }
      return Found(found), false;
    }

    /** Shutdown: every published logger is freed, with its buffers, exactly once. */
    method Destroy()
      requires Valid()
      modifies `head, `list, `blocks, heap
      ensures Valid() && head == null && list == []
      ensures heap.live == old(heap.live - Owned(list, blocks))
      ensures heap.freed == old(heap.freed + Owned(list, blocks))
    {
      ghost var all, live, freed := Owned(list, blocks), heap.live, heap.freed;
      ghost var gone: set<nat> := {};
      while head != null
        invariant Valid()
        invariant gone + Owned(list, blocks) == all
        invariant heap.live == live - gone
        invariant heap.freed == freed + gone
        decreases |list|
      {
        ghost var released := DestroyHead();
        GoneGrows(live, freed, gone, released, Owned(list, blocks));
        gone := gone + released;
      }
      NoneOwned(blocks);
    }

    /** One turn of the shutdown loop: the link is saved before the logger that holds it is freed. */
    method DestroyHead() returns (ghost released: set<nat>)
      requires Valid() && head != null
      modifies `head, `list, `blocks, heap
      ensures Valid() && list == old(list[1..])
      ensures released == old(blocks[list[0]].All())
      ensures heap.live == old(heap.live) - released && heap.freed == old(heap.freed) + released
      ensures old(Owned(list, blocks)) == released + Owned(list, blocks) && released !! Owned(list, blocks)
    {
      var current := head;
      SeparateRest(list, blocks, heap.live);
      head := current.next;
      released := blocks[current].All();
      heap.Delete(blocks[current]);
      list := list[1..];
      blocks := blocks - {current};
    }
  }
}
