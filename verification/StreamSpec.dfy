/** Log streams as values: what a stream will submit, and what each operation does to that.
    `L` stands for the logger a stream belongs to. */
module StreamSpec {
  import opened LogLevels
  import opened Text
  import opened Wrappers

  const MESSAGE_CAPACITY := 4096

  /** The pending record: latched as failed, or the bytes gathered so far. The bytes of a failed
      record can never be observed again, so they are not part of the state. */
  datatype Pending = Failed | Bytes(text: string)

  /** A stream; no logger marks a moved-from stream. */
  datatype StreamState<+L> = StreamState(logger: Option<L>, level: LogLevel, enabled: bool, pending: Pending) {
    predicate Live() {
      logger.Some? && enabled
    }
  }

  /** One call of the logger's submission operation. */
  datatype Submission<+L> = Submission(logger: L, level: LogLevel, message: string)

  /** What an insertion brings: its text, or a formatting failure. */
  type Piece = Option<string>

  function Grow(pending: Pending, piece: Piece): Pending {
    if pending.Failed? || piece.None? then Failed
    else if |pending.text| + |piece.value| > MESSAGE_CAPACITY then Failed
    else Bytes(pending.text + piece.value)
  }

  function Inserted<L>(s: StreamState<L>, piece: Piece): StreamState<L> {
    if s.Live() then s.(pending := Grow(s.pending, piece)) else s
  }

  /** The submissions a flush makes. */
  function Submitted<L>(s: StreamState<L>): seq<Submission<L>> {
    if s.Live() && s.pending.Bytes? && s.pending.text != "" then
      [Submission(s.logger.value, s.level, s.pending.text)]
    else
      []
  }

  function Flushed<L>(s: StreamState<L>): StreamState<L> {
    s.(pending := Bytes(""))
  }

  /** What a move leaves behind. */
  function MovedFrom<L>(s: StreamState<L>): StreamState<L> {
    StreamState(None, s.level, false, Bytes(""))
  }

  function InsertedAll<L>(s: StreamState<L>, pieces: seq<Piece>): StreamState<L>
    decreases |pieces|
  {
    if pieces == [] then s else InsertedAll(Inserted(s, pieces[0]), pieces[1..])
  }

  // ---- whole record or nothing ----

  predicate NoFailure(pieces: seq<Piece>) {
    forall i :: 0 <= i < |pieces| ==> pieces[i].Some?
  }

  function Joined(pieces: seq<Piece>): string {
    if pieces == [] then ""
    else (if pieces[0].Some? then pieces[0].value else "") + Joined(pieces[1..])
  }

  /** The record a list of insertions makes: their whole concatenation, or nothing. */
  function Whole(pieces: seq<Piece>): seq<string> {
    if NoFailure(pieces) && 1 <= |Joined(pieces)| <= MESSAGE_CAPACITY then [Joined(pieces)] else []
  }

  function Gathered(pieces: seq<Piece>): Pending {
    if NoFailure(pieces) && |Joined(pieces)| <= MESSAGE_CAPACITY then Bytes(Joined(pieces)) else Failed
  }

  lemma {:induction false} JoinedAppend(left: seq<Piece>, right: seq<Piece>)
    ensures Joined(left + right) == Joined(left) + Joined(right)
  {
    if left == [] {
      assert left + right == right;
    } else {
      assert (left + right)[1..] == left[1..] + right;
      JoinedAppend(left[1..], right);
    }
  }

  lemma GatherOneMore(pieces: seq<Piece>, piece: Piece)
    ensures Gathered(pieces + [piece]) == Grow(Gathered(pieces), piece)
  {
    JoinedAppend(pieces, [piece]);
    assert Joined([piece]) == (if piece.Some? then piece.value else "") + "";
    assert piece == (pieces + [piece])[|pieces|];
    assert NoFailure(pieces + [piece]) <==> NoFailure(pieces) && piece.Some? by {
      if NoFailure(pieces + [piece]) {
        forall i | 0 <= i < |pieces| ensures pieces[i].Some? {
          assert (pieces + [piece])[i] == pieces[i];
        }
      }
    }
  }

  /** Splitting an insertion into parts changes nothing that can be observed. */
  lemma {:induction false} InsertedAllGathers<L>(s: StreamState<L>, before: seq<Piece>, pieces: seq<Piece>)
    requires s.Live() ==> s.pending == Gathered(before)
    ensures InsertedAll(s, pieces) == if s.Live() then s.(pending := Gathered(before + pieces)) else s
    decreases |pieces|
  {
    if pieces == [] {
      assert before + pieces == before;
    } else {
      GatherOneMore(before, pieces[0]);
      assert before + [pieces[0]] + pieces[1..] == before + pieces;
      InsertedAllGathers(Inserted(s, pieces[0]), before + [pieces[0]], pieces[1..]);
    }
  }

  lemma {:induction false} InsertedAllAppend<L>(s: StreamState<L>, left: seq<Piece>, right: seq<Piece>)
    ensures InsertedAll(s, left + right) == InsertedAll(InsertedAll(s, left), right)
    decreases |left|
  {
    if left == [] {
      assert left + right == right;
    } else {
      assert (left + right)[1..] == left[1..] + right;
      InsertedAllAppend(Inserted(s, left[0]), left[1..], right);
    }
  }

  /** Inserting a text in parts, none of them failing, is inserting it at once. */
  lemma InsertedInParts<L>(s: StreamState<L>, pieces: seq<Piece>)
    requires NoFailure(pieces)
    requires s.pending.Bytes? ==> |s.pending.text| <= MESSAGE_CAPACITY
    ensures InsertedAll(s, pieces) == Inserted(s, Some(Joined(pieces)))
    decreases |pieces|
  {
    if pieces == [] {
      assert s.pending.Bytes? ==> s.pending.text + "" == s.pending.text;
    } else {
      var first, rest := pieces[0], pieces[1..];
      assert NoFailure(rest);
      InsertedInParts(Inserted(s, first), rest);
      assert s.pending.Bytes? ==>
          s.pending.text + first.value + Joined(rest) == s.pending.text + (first.value + Joined(rest));
    }
  }

  /** The life of one stream: insertions and flushes, in any order. */
  datatype Event = Put(piece: Piece) | Flush

  function Run<L>(s: StreamState<L>, events: seq<Event>): (StreamState<L>, seq<Submission<L>>)
    decreases |events|
  {
    if events == [] then (s, [])
    else match events[0]
      case Put(piece) => Run(Inserted(s, piece), events[1..])
      case Flush =>
        var (last, more) := Run(Flushed(s), events[1..]);
        (last, Submitted(s) + more)
  }

  /** What the documentation promises of a life: one whole record for every stretch between
      flushes that has one. */
  function WholeRecords(gathered: seq<Piece>, events: seq<Event>): seq<string>
    decreases |events|
  {
    if events == [] then []
    else match events[0]
      case Put(piece) => WholeRecords(gathered + [piece], events[1..])
      case Flush => Whole(gathered) + WholeRecords([], events[1..])
  }

  function Tagged<L>(logger: L, level: LogLevel, messages: seq<string>): seq<Submission<L>> {
    seq(|messages|, i requires 0 <= i < |messages| => Submission(logger, level, messages[i]))
  }

  /** Whole record or nothing: a flush submits exactly the concatenation of the insertions since
      the last flush when the stream is enabled, none of them failed and their total length is 1
      to 4096; otherwise nothing. No failure survives a flush. */
  lemma {:induction false} WholeRecordOrNothing<L>(s: StreamState<L>, gathered: seq<Piece>, events: seq<Event>)
    requires s.logger.Some? && (s.enabled ==> s.pending == Gathered(gathered))
    ensures Run(s, events).1
         == if s.enabled then Tagged(s.logger.value, s.level, WholeRecords(gathered, events)) else []
    decreases |events|
  {
    if events != [] {
      match events[0]
      case Put(piece) =>
        GatherOneMore(gathered, piece);
        WholeRecordOrNothing(Inserted(s, piece), gathered + [piece], events[1..]);
      case Flush =>
        WholeRecordOrNothing(Flushed(s), [], events[1..]);
    }
  }

  // ---- moves ----

  /** A step of a program over any number of stream handles. */
  datatype Step<L> =
    | Open(handle: nat, logger: L, level: LogLevel, enabled: bool)
    | InsertAt(handle: nat, piece: Piece)
    | FlushAt(handle: nat)
    | Move(from: nat, to: nat)
    | Destroy(handle: nat)

  type Handles<L> = map<nat, StreamState<L>>

  /** C++ scoping: a handle is created once, used while it exists, and destroyed once. */
  predicate StepLegal<L>(existing: set<nat>, step: Step<L>) {
    match step
    case Open(h, _, _, _) => h !in existing
    case InsertAt(h, _) => h in existing
    case FlushAt(h) => h in existing
    case Move(from, to) => from in existing && to !in existing
    case Destroy(h) => h in existing
  }

  function ExistingAfter<L>(existing: set<nat>, step: Step<L>): set<nat> {
    match step
    case Open(h, _, _, _) => existing + {h}
    case Move(_, to) => existing + {to}
    case Destroy(h) => existing - {h}
    case _ => existing
  }

  predicate Legal<L>(existing: set<nat>, steps: seq<Step<L>>)
    decreases |steps|
  {
    steps == [] || (StepLegal(existing, steps[0]) && Legal(ExistingAfter(existing, steps[0]), steps[1..]))
  }

  function HandlesAfter<L>(handles: Handles<L>, step: Step<L>): (after: Handles<L>)
    requires StepLegal(handles.Keys, step)
    ensures after.Keys == ExistingAfter(handles.Keys, step)
  {
    match step
    case Open(h, logger, level, enabled) => handles[h := StreamState(Some(logger), level, enabled, Bytes(""))]
    case InsertAt(h, piece) => handles[h := Inserted(handles[h], piece)]
    case FlushAt(h) => handles[h := Flushed(handles[h])]
    case Move(from, to) => handles[to := handles[from]][from := MovedFrom(handles[from])]
    case Destroy(h) => handles - {h}
  }

  function StepSubmits<L>(handles: Handles<L>, step: Step<L>): seq<Submission<L>>
    requires StepLegal(handles.Keys, step)
  {
    match step
    case FlushAt(h) => Submitted(handles[h])
    case Destroy(h) => Submitted(handles[h])
    case _ => []
  }

  /** The submissions of a program, in order. */
  function Submissions<L>(handles: Handles<L>, steps: seq<Step<L>>): seq<Submission<L>>
    requires Legal(handles.Keys, steps)
    decreases |steps|
  {
    if steps == [] then []
    else StepSubmits(handles, steps[0]) + Submissions(HandlesAfter(handles, steps[0]), steps[1..])
  }

  /** Which stream a handle currently stands for; none once it has been moved from. */
  type Owners = map<nat, Option<nat>>

  function OwnersAfter<L>(owners: Owners, next: nat, step: Step<L>): (after: Owners)
    requires StepLegal(owners.Keys, step)
    ensures after.Keys == ExistingAfter(owners.Keys, step)
  {
    match step
    case Open(h, _, _, _) => owners[h := Some(next)]
    case Move(from, to) => owners[to := owners[from]][from := None]
    case Destroy(h) => owners - {h}
    case _ => owners
  }

  /** A step with handles resolved to streams: a move is nothing, and so is a step through a
      moved-from handle. */
  function ErasedStep<L>(owners: Owners, next: nat, step: Step<L>): seq<Step<L>>
    requires StepLegal(owners.Keys, step)
  {
    match step
    case Open(_, logger, level, enabled) => [Open(next, logger, level, enabled)]
    case InsertAt(h, piece) => if owners[h].Some? then [InsertAt(owners[h].value, piece)] else []
    case FlushAt(h) => if owners[h].Some? then [FlushAt(owners[h].value)] else []
    case Move(_, _) => []
    case Destroy(h) => if owners[h].Some? then [Destroy(owners[h].value)] else []
  }

  /** The program with its moves erased. Streams are numbered in the order they are opened. */
  function Erased<L>(owners: Owners, next: nat, steps: seq<Step<L>>): seq<Step<L>>
    requires Legal(owners.Keys, steps)
    decreases |steps|
  {
    if steps == [] then []
    else
      ErasedStep(owners, next, steps[0])
      + Erased(OwnersAfter(owners, next, steps[0]), if steps[0].Open? then next + 1 else next, steps[1..])
  }

  predicate NoMoves<L>(steps: seq<Step<L>>) {
    forall i :: 0 <= i < |steps| ==> !steps[i].Move?
  }

  /** Handles and streams agree: a handle holds the state of the stream it stands for, no two
      handles stand for one stream, and a handle that stands for none holds nothing. */
  ghost predicate Agree<L>(handles: Handles<L>, owners: Owners, streams: Handles<L>, next: nat) {
    && owners.Keys == handles.Keys
    && (forall h :: h in handles && owners[h].Some? ==>
          owners[h].value in streams && streams[owners[h].value] == handles[h])
    && (forall h :: h in handles && owners[h].None? ==> handles[h] == MovedFrom(handles[h]))
    && (forall h, k :: h in handles && k in handles && owners[h].Some? && owners[h] == owners[k] ==> h == k)
    && (forall i :: i in streams ==> i < next)
  }

  /** Nothing done through a moved-from handle has any effect. */
  lemma MovedFromIsInert<L>(s: StreamState<L>, piece: Piece)
    ensures var m := MovedFrom(s); Inserted(m, piece) == m && Flushed(m) == m && Submitted(m) == [] && MovedFrom(m) == m
  {
  }

  /** The streams after an erased step. */
  function StreamsAfter<L>(streams: Handles<L>, steps: seq<Step<L>>): Handles<L>
    requires |steps| <= 1 && Legal(streams.Keys, steps)
  {
    if steps == [] then streams else HandlesAfter(streams, steps[0])
  }

  lemma OpenAgrees<L>(handles: Handles<L>, owners: Owners, streams: Handles<L>, next: nat, h: nat, s: StreamState<L>)
    requires Agree(handles, owners, streams, next) && h !in handles
    ensures Agree(handles[h := s], owners[h := Some(next)], streams[next := s], next + 1)
  {
  }

  lemma UpdateAgrees<L>(handles: Handles<L>, owners: Owners, streams: Handles<L>, next: nat, h: nat, s: StreamState<L>)
    requires Agree(handles, owners, streams, next) && h in handles && owners[h].Some?
    ensures Agree(handles[h := s], owners, streams[owners[h].value := s], next)
  {
  }

  lemma MoveAgrees<L>(handles: Handles<L>, owners: Owners, streams: Handles<L>, next: nat, from: nat, to: nat)
    requires Agree(handles, owners, streams, next) && from in handles && to !in handles
    ensures Agree(handles[to := handles[from]][from := MovedFrom(handles[from])],
                  owners[to := owners[from]][from := None], streams, next)
  {
  }

  lemma DestroyAgrees<L>(handles: Handles<L>, owners: Owners, streams: Handles<L>, next: nat, h: nat)
    requires Agree(handles, owners, streams, next) && h in handles
    ensures Agree(handles - {h}, owners - {h},
                  if owners[h].Some? then streams - {owners[h].value} else streams, next)
  {
  }

  lemma StepAgrees<L>(handles: Handles<L>, owners: Owners, streams: Handles<L>, next: nat, step: Step<L>)
    requires Agree(handles, owners, streams, next) && StepLegal(handles.Keys, step)
    ensures var erased := ErasedStep(owners, next, step);
            && |erased| <= 1 && NoMoves(erased) && Legal(streams.Keys, erased)
            && Submissions(streams, erased) == StepSubmits(handles, step)
            && Agree(HandlesAfter(handles, step), OwnersAfter(owners, next, step), StreamsAfter(streams, erased),
                     if step.Open? then next + 1 else next)
  {
    match step
    case Open(h, logger, level, enabled) =>
      OpenAgrees(handles, owners, streams, next, h, StreamState(Some(logger), level, enabled, Bytes("")));
    case InsertAt(h, piece) =>
      if owners[h].Some? {
        UpdateAgrees(handles, owners, streams, next, h, Inserted(handles[h], piece));
      } else {
        MovedFromIsInert(handles[h], piece);
        assert handles[h := handles[h]] == handles;
      }
    case FlushAt(h) =>
      if owners[h].Some? {
        UpdateAgrees(handles, owners, streams, next, h, Flushed(handles[h]));
      } else {
        assert handles[h := handles[h]] == handles;
      }
    case Move(from, to) =>
      MoveAgrees(handles, owners, streams, next, from, to);
    case Destroy(h) =>
      DestroyAgrees(handles, owners, streams, next, h);
  }

  lemma {:induction false} LegalAfter<L>(streams: Handles<L>, first: seq<Step<L>>, rest: seq<Step<L>>)
    requires |first| <= 1 && Legal(streams.Keys, first)
    requires Legal(StreamsAfter(streams, first).Keys, rest)
    ensures Legal(streams.Keys, first + rest)
    ensures Submissions(streams, first + rest)
         == Submissions(streams, first) + Submissions(StreamsAfter(streams, first), rest)
  {
    if first == [] {
      assert first + rest == rest;
    } else {
      assert (first + rest)[1..] == rest;
    }
  }

  /** Moves are invisible: a program submits the same records, each once and in the same order,
      as the program with its moves erased. */
  lemma {:induction false} MovesInvisible<L>(handles: Handles<L>, owners: Owners, streams: Handles<L>, next: nat,
                                             steps: seq<Step<L>>)
    requires Agree(handles, owners, streams, next) && Legal(handles.Keys, steps)
    ensures NoMoves(Erased(owners, next, steps))
    ensures Legal(streams.Keys, Erased(owners, next, steps))
    ensures Submissions(streams, Erased(owners, next, steps)) == Submissions(handles, steps)
    decreases |steps|
  {
    if steps != [] {
      var step, first := steps[0], ErasedStep(owners, next, steps[0]);
      var next' := if step.Open? then next + 1 else next;
      var owners' := OwnersAfter(owners, next, step);
      StepAgrees(handles, owners, streams, next, step);
      MovesInvisible(HandlesAfter(handles, step), owners', StreamsAfter(streams, first), next', steps[1..]);
      LegalAfter(streams, first, Erased(owners', next', steps[1..]));
    }
  }

  function NoHandles<L>(): (none: Handles<L>)
    ensures none.Keys == {}
  {
    map[]
  }

  function NoOwners(): (none: Owners)
    ensures none.Keys == {}
  {
    map[]
  }

  /** The same from the start of a program, when there are no handles. */
  lemma ProgramMovesInvisible<L>(steps: seq<Step<L>>)
    requires Legal({}, steps)
    ensures NoMoves(Erased(NoOwners(), 0, steps)) && Legal({}, Erased(NoOwners(), 0, steps))
    ensures Submissions(NoHandles(), Erased(NoOwners(), 0, steps)) == Submissions(NoHandles(), steps)
  {
    MovesInvisible(NoHandles(), NoOwners(), NoHandles(), 0, steps);
  }
}
