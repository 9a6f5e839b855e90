/** The two-slot storage behind `Result`: the replacement is built before the old payload is
    dropped. Payload objects are cells with a lifetime, so that building from a reference to the
    current payload is visible. */
module ResultStorages {
  import opened Wrappers

  datatype Content<T, E> = Value(value: T) | Error(error: E)

  /** A payload object: alive from its construction to its destruction. */
  datatype Cell<T, E> = Cell(alive: bool, content: Content<T, E>)

  /** What a construction is given: a value of its own, or a reference to the current payload. */
  datatype Argument<T, E> = Given(content: Content<T, E>) | Aliased

  /** One emplacement. `build` makes the payload from the argument; `throws` says whether that
      construction throws; `leaves` is what it leaves in the argument when it moves from it. */
  datatype Attempt<!T, !E> = Attempt(
    argument: Argument<T, E>,
    build: Content<T, E> -> Content<T, E>,
    throws: bool,
    leaves: Option<Content<T, E>>)

  /** All payload objects ever made, the slots, and which slot is active. */
  datatype Storage<T, E> = Storage(cells: seq<Cell<T, E>>, slots: seq<Option<nat>>, active: nat)

  /** Exactly one slot is engaged, the active one, and exactly one payload is alive, the one in it. */
  predicate OneLive<T, E>(s: Storage<T, E>) {
    && |s.slots| == 2 && s.active < 2
    && s.slots[s.active].Some? && s.slots[1 - s.active].None?
    && s.slots[s.active].value < |s.cells|
    && forall i :: 0 <= i < |s.cells| ==> (s.cells[i].alive <==> i == s.slots[s.active].value)
  }

  /** The payload object in use. */
  function Payload<T, E>(s: Storage<T, E>): nat
    requires OneLive(s)
  {
    s.slots[s.active].value
  }

  function Current<T, E>(s: Storage<T, E>): Content<T, E>
    requires OneLive(s)
  {
    s.cells[Payload(s)].content
  }

  /** Moving from a value leaves a value, and moving from an error leaves an error. */
  predicate KeepsAlternative<T, E>(content: Content<T, E>, a: Attempt<T, E>) {
    a.argument.Aliased? && a.leaves.Some? ==> (a.leaves.value.Value? <==> content.Value?)
  }

  /** What an attempt does to the payload that exists when it starts. */
  function Touched<T, E>(content: Content<T, E>, a: Attempt<T, E>): Content<T, E> {
    if a.argument.Aliased? && a.leaves.Some? then a.leaves.value else content
  }

  function Built<T, E>(content: Content<T, E>, a: Attempt<T, E>): Content<T, E> {
    a.build(if a.argument.Aliased? then content else a.argument.content)
  }

  /** The storage after an attempt. */
  function Emplaced<T, E>(s: Storage<T, E>, a: Attempt<T, E>): Storage<T, E>
    requires OneLive(s)
  {
    var previous := Payload(s);
    var touched := Touched(Current(s), a);
    if a.throws then s.(cells := s.cells[previous := Cell(true, touched)])
    else
      Storage(s.cells[previous := Cell(false, touched)] + [Cell(true, Built(Current(s), a))],
              s.slots[s.active := None][1 - s.active := Some(|s.cells|)], 1 - s.active)
  }

  function Run<T, E>(s: Storage<T, E>, attempts: seq<Attempt<T, E>>): Storage<T, E>
    requires OneLive(s)
    decreases |attempts|
  {
    if attempts == [] then s
    else
      AttemptKeepsOneLive(s, attempts[0]);
      Run(Emplaced(s, attempts[0]), attempts[1..])
  }

  /** The content that must be there after a run, said without any storage: the last attempt that
      did not throw decides. */
  function Survivor<T, E>(content: Content<T, E>, attempts: seq<Attempt<T, E>>): Content<T, E>
    decreases |attempts|
  {
    if attempts == [] then content
    else
      Survivor(if attempts[0].throws then Touched(content, attempts[0]) else Built(content, attempts[0]), attempts[1..])
  }

  /** Strong guarantee: a throwing attempt leaves the same payload object in the same slot, and
      the same content unless the construction itself moved from it; any other attempt puts a new
      object in the other slot, built from what the argument held before, and ends the old one. */
  lemma AttemptKeepsOneLive<T, E>(s: Storage<T, E>, a: Attempt<T, E>)
    requires OneLive(s)
    ensures OneLive(Emplaced(s, a))
    ensures a.throws ==>
              && Payload(Emplaced(s, a)) == Payload(s) && Emplaced(s, a).active == s.active
              && (a.argument.Given? || a.leaves.None? ==> Emplaced(s, a) == s)
              && (KeepsAlternative(Current(s), a) ==> (Current(Emplaced(s, a)).Value? <==> Current(s).Value?))
    ensures !a.throws ==>
              && Payload(Emplaced(s, a)) == |s.cells| && Emplaced(s, a).active != s.active
              && Current(Emplaced(s, a)) == a.build(if a.argument.Aliased? then Current(s) else a.argument.content)
              && !Emplaced(s, a).cells[Payload(s)].alive
  {
  }

  /** Number of payloads alive. */
  function LiveCount<T, E>(cells: seq<Cell<T, E>>): nat {
    if cells == [] then 0 else (if cells[|cells| - 1].alive then 1 else 0) + LiveCount(cells[..|cells| - 1])
  }

  lemma {:induction false} CountLive<T, E>(cells: seq<Cell<T, E>>, live: int)
    requires forall i :: 0 <= i < |cells| ==> (cells[i].alive <==> i == live)
    ensures LiveCount(cells) == if 0 <= live < |cells| then 1 else 0
  {
    if cells != [] {
      CountLive(cells[..|cells| - 1], live);
    }
  }

  /** After any sequence of emplacements, any of which may throw, one slot is engaged and active,
      one payload is alive, and it holds what the last attempt that did not throw built. */
  lemma {:induction false} RunsKeepOneLive<T, E>(s: Storage<T, E>, attempts: seq<Attempt<T, E>>)
    requires OneLive(s)
    ensures OneLive(Run(s, attempts)) && LiveCount(Run(s, attempts).cells) == 1
    ensures Current(Run(s, attempts)) == Survivor(Current(s), attempts)
    ensures |s.cells| <= |Run(s, attempts).cells|
    ensures forall i :: 0 <= i < |s.cells| && !s.cells[i].alive ==> Run(s, attempts).cells[i] == s.cells[i]
    decreases |attempts|
  {
    if attempts == [] {
      CountLive(s.cells, Payload(s));
    } else {
      AttemptKeepsOneLive(s, attempts[0]);
      RunsKeepOneLive(Emplaced(s, attempts[0]), attempts[1..]);
    }
  }

  class ResultStorage<!T, !E> {
    var cells: seq<Cell<T, E>>
    const slots: array<Option<nat>>
    var active: nat

    ghost function State(): Storage<T, E>
      reads this, slots
    {
      Storage(cells, slots[..], active)
    }

    ghost predicate Valid()
      reads this, slots
    {
      OneLive(State())
    }

    /** In-place construction that does not throw; when it throws there is no storage. */
    constructor (content: Content<T, E>)
      ensures Valid() && fresh(slots)
      ensures State() == Storage([Cell(true, content)], [Some(0), None], 0)
    {
      cells := [Cell(true, content)];
      slots := new Option<nat>[2](i => None);
      active := 0;
      new;
      slots[0] := Some(0);
    }

    /** Reading a payload: only while it is alive. */
    function Read(cell: nat): Content<T, E>
      reads this
      requires cell < |cells| && cells[cell].alive
    {
      cells[cell].content
    }

    /** Builds the replacement in the other slot first, so that a reference to the current payload
        is still good while it is read, and a throw changes nothing. */
    method Emplace(a: Attempt<T, E>) returns (threw: bool)
      requires Valid()
      modifies this, slots
      ensures Valid()
      ensures State() == Emplaced(old(State()), a)
      ensures threw == a.throws
    {
      var next := 1 - active;
      var current := slots[active].value;
      if !a.throws {
        slots[next] := Some(|cells|);
        cells := cells + [Cell(true, a.build(if a.argument.Aliased? then Read(current) else a.argument.content))];
      }
      if a.argument.Aliased? && a.leaves.Some? {
        cells := cells[current := Cell(true, a.leaves.value)];
      }
      if a.throws {
        return true;
      }
      var previous := active;
      active := next;
      cells := cells[current := cells[current].(alive := false)];
      slots[previous] := None;
      return false;
    }

    /** Which alternative is held; nothing stands for terminating the process. */
    function Index(): (r: Option<nat>)
      requires slots.Length == 2 && active < 2
      reads this, slots
      ensures Valid() ==> r == Some(if Current(State()).Value? then 0 else 1)
    {
      match slots[active]
      case None => None
      case Some(cell) => if cell < |cells| then Some(if cells[cell].content.Value? then 0 else 1) else None
    }

    /** The payload object behind alternative `index`; nothing stands for terminating. */
    function Get(index: nat): (r: Option<nat>)
      requires slots.Length == 2 && active < 2
      reads this, slots
      ensures Valid() ==> r == if Index() == Some(index) then Some(Payload(State())) else None
      ensures Valid() && r.Some? ==> r.value < |cells| && cells[r.value].alive
    {
      match slots[active]
      case None => None
      case Some(cell) =>
        if cell < |cells| && index == (if cells[cell].content.Value? then 0 else 1) then Some(cell) else None
    }
  }

  /** `Result`: a value or an error. */
  class Result<!T, !E> {
    const storage: ResultStorage<T, E>

    ghost predicate Valid()
      reads this, storage, storage.slots
    {
      storage.Valid()
    }

    ghost function Held(): Content<T, E>
      requires Valid()
      reads this, storage, storage.slots
    {
      Current(storage.State())
    }

    constructor FromValue(value: T)
      ensures Valid() && fresh(storage) && fresh(storage.slots) && Held() == Value(value)
    {
      storage := new ResultStorage(Value(value));
    }

    constructor FromError(error: E)
      ensures Valid() && fresh(storage) && fresh(storage.slots) && Held() == Error(error)
    {
      storage := new ResultStorage(Error(error));
    }

    predicate HasValue()
      requires Valid()
      reads this, storage, storage.slots
      ensures HasValue() <==> Held().Value?
    {
      storage.Index() == Some(0)
    }

    /** Replaces whatever is held by a value made from the argument. A throw keeps the payload that is
        held; all that can happen to it is what the construction did to its own argument. */
    method EmplaceValue(argument: Argument<T, E>, make: Content<T, E> -> T, throws: bool,
                        leaves: Option<Content<T, E>>) returns (threw: bool)
      requires Valid()
      modifies storage, storage.slots
      ensures Valid() && threw == throws
      ensures !throws ==> Held() == Value(make(if argument.Aliased? then old(Held()) else argument.content))
      ensures throws ==> Payload(storage.State()) == old(Payload(storage.State()))
      ensures throws && (argument.Given? || leaves.None?) ==> storage.State() == old(storage.State())
      ensures throws && argument.Aliased? && leaves.Some? ==> Held() == leaves.value
    {
      threw := storage.Emplace(Attempt(argument, c => Value(make(c)), throws, leaves));
    }

    /** The same for an error. */
    method EmplaceError(argument: Argument<T, E>, make: Content<T, E> -> E, throws: bool,
                        leaves: Option<Content<T, E>>) returns (threw: bool)
      requires Valid()
      modifies storage, storage.slots
      ensures Valid() && threw == throws
      ensures !throws ==> Held() == Error(make(if argument.Aliased? then old(Held()) else argument.content))
      ensures throws ==> Payload(storage.State()) == old(Payload(storage.State()))
      ensures throws && (argument.Given? || leaves.None?) ==> storage.State() == old(storage.State())
      ensures throws && argument.Aliased? && leaves.Some? ==> Held() == leaves.value
    {
      threw := storage.Emplace(Attempt(argument, c => Error(make(c)), throws, leaves));
    }

    /** Access to the value terminates exactly when an error is held. */
    function ValueOf(): (r: Option<T>)
      requires Valid()
      reads this, storage, storage.slots
      ensures r == if Held().Value? then Some(Held().value) else None
    {
      match storage.Get(0)
      case None => None
      case Some(cell) => Some(storage.Read(cell).value)
    }

    /** Access to the error terminates exactly when a value is held. */
    function ErrorOf(): (r: Option<E>)
      requires Valid()
      reads this, storage, storage.slots
      ensures r == if Held().Error? then Some(Held().error) else None
    {
      if HasValue() then None
      else match storage.Get(1)
        case None => None
        case Some(cell) => Some(storage.Read(cell).error)
    }
  }
}
