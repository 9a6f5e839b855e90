/** Loggers, streams and their collaborators as objects. What a stream does is stated against the
    values of StreamSpec; what reaches the sink, against the record renderer. */
module Logging {
  import opened ConsoleRecordFormatter
  import opened Decimal
  import opened Insertions
  import opened LogLevels
  import opened ModelledPayload
  import opened RecordBuffers
  import opened StreamSpec
  import opened Text
  import opened Wrappers

  // ---- collaborators ----

  /** How the metadata provider answers: it may throw, refuse, or fill in the metadata. */
  datatype Reading = Threw | Refused | Acquired(metadata: RuntimeMetadata)

  class MetadataProvider {
    var readings: seq<Reading>

    constructor ()
      ensures readings == []
    {
      readings := [];
    }

    method Read() returns (reading: Reading)
      modifies this
      ensures readings == old(readings) + [reading]
    {
      reading := *;
      readings := readings + [reading];
    }
  }

  datatype SinkStatus = Success | WriteFailed

  class Sink {
    var records: seq<string>

    constructor ()
      ensures records == []
    {
      records := [];
    }

    /** Takes one record. Whether the device accepts it does not concern the caller. */
    method Write(record: string) returns (status: SinkStatus)
      modifies this
      ensures records == old(records) + [record]
    {
      records := records + [record];
      status := *;
    }
  }

  /** The records a submission hands to the sink, given the provider's answer: one or none. */
  function Delivery(reading: Reading, level: LogLevel, context: string, message: string): seq<string> {
    if reading.Acquired? then
      match Rendered(reading.metadata, level, context, message)
      case None => []
      case Some(record) => [record]
    else
      []
  }

  // ---- the logger ----

  class Logger {
    const contextId: string
    const description: string
    const threshold: LogLevel
    const sink: Sink
    const provider: MetadataProvider
    var next: Logger?

    /** Every call of Submit so far. */
    ghost var submissions: seq<Submission<Logger>>

    constructor (contextId: string, description: string, threshold: LogLevel, sink: Sink, provider: MetadataProvider)
      requires threshold <= VERBOSE
      ensures this.contextId == contextId && this.description == description && this.threshold == threshold
      ensures this.sink == sink && this.provider == provider
      ensures next == null && submissions == []
    {
      this.contextId := contextId;
      this.description := description;
      this.threshold := threshold;
      this.sink := sink;
      this.provider := provider;
      next := null;
      submissions := [];
    }

    /** A severity is enabled when it is a defined one, not off, and not beyond the threshold. */
    predicate IsEnabled(level: LogLevel) {
      level >= FATAL && level <= VERBOSE && threshold <= VERBOSE && level <= threshold
    }

    /** What a submission changes: it is noted; and unless it is empty or filtered the provider is
        asked once, and the sink gets the one record its answer makes, if it makes any. */
    twostate predicate SubmittedOne(level: LogLevel, message: string)
      reads this, sink, provider
    {
      && submissions == old(submissions) + [Submission(this, level, message)]
      && if message == "" || !IsEnabled(level) then
           sink.records == old(sink.records) && provider.readings == old(provider.readings)
         else
           && |provider.readings| == |old(provider.readings)| + 1
           && old(provider.readings) <= provider.readings
           && sink.records == old(sink.records)
                + Delivery(provider.readings[|provider.readings| - 1], level, contextId, message)
    }

    /** Nothing was submitted. */
    twostate predicate SubmittedNothing()
      reads this, sink, provider
    {
      && submissions == old(submissions)
      && sink.records == old(sink.records)
      && provider.readings == old(provider.readings)
    }

    method Submit(level: LogLevel, message: string)
      modifies this`submissions, sink, provider
      ensures SubmittedOne(level, message)
    {
      submissions := submissions + [Submission(this, level, message)];
      if message == "" || !IsEnabled(level) {
        return;
      }
      var reading := provider.Read();
      if !reading.Acquired? {
        return;
      }
      var record := new RecordBuffer();
      var rendered := RenderConsoleRecord(reading.metadata, level, contextId, message, record);
      if !rendered {
        return;
      }
      var status := sink.Write(record.View());
    }

    /** Logs a modelled message. `rendering` is what the message's renderer inserts; `toLogger` and
        `toTrace` are the message type's routing. The logger's part assembles the payload in
        pieces and submits it when the stream dies; the trace's part does not depend on it. */
    method LogWith(attributes: seq<Attribute>, id: string, level: LogLevel, rendering: seq<Insertion>,
                   toLogger: bool, toTrace: bool, trace: TraceBackend)
      requires IsValidMessageId(id) && AllValid(rendering) && ValidAttributes(attributes)
      modifies `submissions, sink, provider, trace
      ensures if toLogger && IsEnabled(level) && AllRender(rendering)
                 && |Payload(id, TextOf(rendering), attributes)| <= MESSAGE_CAPACITY
              then SubmittedOne(level, Payload(id, TextOf(rendering), attributes))
              else SubmittedNothing()
      ensures trace.artifacts == old(trace.artifacts) + if toTrace then [(id, rendering)] else []
    {
      if toLogger {
        if IsEnabled(level) {
          var stream := new LogStream(this, level);
          Assemble(stream, attributes, id, rendering);
          stream.Flush();
        }
      }
      if toTrace {
        trace.TraceArti(id, rendering);
      }
    }

    /** The pieces of the payload, in order: the id, the rendering, the attributes. */
    static method Assemble(stream: LogStream, attributes: seq<Attribute>, id: string, rendering: seq<Insertion>)
      requires stream.Valid() && stream.State().Live() && stream.State().pending == Bytes("")
      requires AllValid(rendering) && ValidAttributes(attributes)
      modifies stream`size, stream`failed, stream.buffer
      ensures stream.Valid()
      ensures stream.State() == old(stream.State()).(
                pending := if AllRender(rendering) && |Payload(id, TextOf(rendering), attributes)| <= MESSAGE_CAPACITY
                           then Bytes(Payload(id, TextOf(rendering), attributes)) else Failed)
    {
      AssembledPayload(id, rendering, attributes, stream.State());
      stream.Append("id=");
      stream.Append(id);
      var writer := new MessageWriter(stream);
      writer.Render(rendering);
      AppendAttributes(stream, attributes);
    }

    static method AppendAttributeValue(stream: LogStream, value: string)
      requires stream.Valid()
      modifies stream`size, stream`failed, stream.buffer
      ensures stream.Valid()
      ensures stream.State() == Inserted(old(stream.State()), Some(EscapedValue(value)))
    {
      ghost var before := stream.State();
      InsertNothing(before);
      for i := 0 to |value|
        invariant stream.Valid()
        invariant stream.State() == Inserted(before, Some(EscapedValue(value[..i])))
      {
        var c := value[i];
        EscapedValueStep(value, i);
        EscapedValueCut(value, i);
        InsertTwice(before, EscapedValue(value[..i]), EscapedValue(value[i..]));
        if stream.failed {
          return;
        }
        InsertTwice(before, EscapedValue(value[..i]), EscapedValueChar(c));
        InsertTwice(stream.State(), "\\", [c]);
        assert "\\" + [c] == ['\\', c];
        if c == '\\' || c == '"' {
          stream.Append("\\");
        }
        stream.Append([c]);
      }
      assert value[..|value|] == value;
    }

    static method AppendAttribute(stream: LogStream, attribute: Attribute)
      requires stream.Valid() && ValidAttribute(attribute)
      modifies stream`size, stream`failed, stream.buffer
      ensures stream.Valid()
      ensures stream.State() == Inserted(old(stream.State()), Some(AttributeText(attribute)))
    {
      ghost var before := stream.State();
      match attribute {
        case Location(file, line) =>
          stream.Append(" location=\"");
          AppendAttributeValue(stream, file);
          InsertTwice(before, " location=\"", EscapedValue(file));
          stream.Append(":");
          InsertTwice(before, " location=\"" + EscapedValue(file), ":");
          stream.InsertInteger(line, UInt32);
          IntegerTextFits(line, UInt32);
          InsertTwice(before, " location=\"" + EscapedValue(file) + ":", Natural(line));
          Associate(" location=\"", EscapedValue(file), ":");
          Associate(" location=\"", EscapedValue(file) + ":", Natural(line));
          assert stream.State() == Inserted(before, Some(Prefix(LocationKind) + AttributeBody(attribute)));
        case Tag(value) =>
          stream.Append(" tag=\"");
          AppendAttributeValue(stream, value);
          InsertTwice(before, " tag=\"", EscapedValue(value));
      }
      stream.Append("\"");
      InsertTwice(before, Prefix(KindOf(attribute)) + AttributeBody(attribute), "\"");
    }

    /** The fold over the attribute tuple, first to last. */
    static method AppendAttributes(stream: LogStream, attributes: seq<Attribute>)
      requires stream.Valid() && ValidAttributes(attributes)
      modifies stream`size, stream`failed, stream.buffer
      ensures stream.Valid()
      ensures stream.State() == Inserted(old(stream.State()), Some(AttributesText(attributes)))
    {
      ghost var before := stream.State();
      InsertNothing(before);
      for i := 0 to |attributes|
        invariant stream.Valid()
        invariant stream.State() == Inserted(before, Some(AttributesText(attributes[..i])))
      {
        assert attributes[..i + 1][..i] == attributes[..i];
        AppendAttribute(stream, attributes[i]);
        InsertTwice(before, AttributesText(attributes[..i]), AttributeText(attributes[i]));
      }
      assert attributes[..|attributes|] == attributes;
    }
  }

  /** The trace backend: it keeps every artifact it is given. */
  class TraceBackend {
    var artifacts: seq<(string, seq<Insertion>)>

    constructor ()
      ensures artifacts == []
    {
      artifacts := [];
    }

    method TraceArti(id: string, rendering: seq<Insertion>)
      modifies this
      ensures artifacts == old(artifacts) + [(id, rendering)]
    {
      artifacts := artifacts + [(id, rendering)];
    }
  }

  // ---- the message writer ----

  /** Puts one space between the message id and the first text that is not empty. */
  class MessageWriter {
    const stream: LogStream
    var textStarted: bool

    constructor (stream: LogStream)
      ensures this.stream == stream && !textStarted
    {
      this.stream := stream;
      textStarted := false;
    }

    method Insert(insertion: Insertion)
      requires stream.Valid() && insertion.Valid()
      modifies `textStarted, stream`size, stream`failed, stream.buffer
      ensures stream.Valid()
      ensures stream.State() == InsertedAll(old(stream.State()), WriterPieces(old(textStarted), insertion))
      ensures textStarted == WriterStarted(old(textStarted), insertion)
    {
      ghost var before, wasStarted := stream.State(), textStarted;
      ghost var pieces := WriterPieces(wasStarted, insertion);
      match insertion {
        case Characters(text) =>
          if text == "" {
            return;
          }
        case CString(pointer) =>
          if pointer.None? {
            stream.InsertCString(pointer);
            assert InsertedAll(before, pieces) == Inserted(before, None);
            return;
          }
          if pointer.value == "" {
            return;
          }
        case _ =>
      }
      if !textStarted {
        stream.Append(" ");
        textStarted := true;
      }
      stream.Insert(insertion);
      if wasStarted {
        assert pieces[1..] == [];
      } else {
        assert pieces[1..] == [insertion.Rendering()] && pieces[1..][1..] == [];
        assert InsertedAll(Inserted(before, Some(" ")), pieces[1..]) == stream.State();
      }
    }

    /** The message's renderer: it inserts one value after another. */
    method Render(rendering: seq<Insertion>)
      requires stream.Valid() && AllValid(rendering)
      modifies `textStarted, stream`size, stream`failed, stream.buffer
      ensures stream.Valid()
      ensures stream.State() == InsertedAll(old(stream.State()), WriterAll(old(textStarted), rendering))
    {
      ghost var before, wasStarted := stream.State(), textStarted;
      for i := 0 to |rendering|
        invariant stream.Valid()
        invariant InsertedAll(stream.State(), WriterAll(textStarted, rendering[i..]))
               == InsertedAll(before, WriterAll(wasStarted, rendering))
      {
        assert rendering[i..][1..] == rendering[i + 1..];
        InsertedAllAppend(stream.State(), WriterPieces(textStarted, rendering[i]),
                          WriterAll(WriterStarted(textStarted, rendering[i]), rendering[i + 1..]));
        Insert(rendering[i]);
      }
    }
  }

  // ---- the stream ----

  class LogStream {
    const buffer: array<char>
    const level: LogLevel
    var size: nat
    var logger: Logger?
    var failed: bool
    var enabled: bool

    ghost predicate Valid()
      reads this, buffer
    {
      && buffer.Length == MESSAGE_CAPACITY
      && size <= MESSAGE_CAPACITY
      && (logger != null ==> enabled == logger.IsEnabled(level))
      && (logger == null || !enabled ==> size == 0 && !failed)
    }

    /** The stream as a value. */
    ghost function State(): StreamState<Logger>
      requires Valid()
      reads this, buffer
    {
      StreamState(if logger == null then None else Some(logger), level, enabled,
                  if failed then Failed else Bytes(buffer[..size]))
    }

    /** What a flush can change outside the stream: the logger's submissions, and its sink and
        metadata provider. */
    ghost function Destination(): set<Logger>
      reads this
    {
      if logger == null then {} else {logger}
    }

    ghost function Collaborators(): set<object>
      reads this
    {
      if logger == null then {} else {logger.sink, logger.provider}
    }

    constructor (logger: Logger, level: LogLevel)
      ensures Valid() && fresh(buffer)
      ensures State() == StreamState(Some(logger), level, logger.IsEnabled(level), Bytes(""))
    {
      buffer := new char[MESSAGE_CAPACITY];
      size := 0;
      this.logger := logger;
      this.level := level;
      failed := false;
      enabled := logger.IsEnabled(level);
    }

    /** The move constructor: the pending record changes hands. */
    constructor MoveFrom(other: LogStream)
      requires other.Valid()
      modifies other`size, other`logger, other`failed, other`enabled
      ensures Valid() && fresh(buffer) && other.Valid()
      ensures State() == old(other.State())
      ensures other.State() == MovedFrom(old(other.State()))
    {
      buffer := new char[MESSAGE_CAPACITY];
      size := other.size;
      logger := other.logger;
      level := other.level;
      failed := other.failed;
      enabled := other.enabled;
      new;
      other.logger := null;
      if size != 0 {
        forall i | 0 <= i < size {
          buffer[i] := other.buffer[i];
        }
      }
      assert buffer[..size] == old(other.buffer[..other.size]);
      other.size := 0;
      other.failed := false;
      other.enabled := false;
    }

    method Append(value: string)
      requires Valid()
      modifies `size, `failed, buffer
      ensures Valid()
      ensures State() == Inserted(old(State()), Some(value))
      ensures failed ==> buffer[..size] == old(buffer[..size])
    {
      if logger == null || !enabled || failed || value == "" {
        return;
      }
      if |value| > buffer.Length - size {
        failed := true;
        return;
      }
      forall i | 0 <= i < |value| {
        buffer[size + i] := value[i];
      }
      size := size + |value|;
      assert buffer[..size] == old(buffer[..size]) + value;
    }

    method InsertCString(pointer: Option<string>)
      requires Valid()
      modifies `size, `failed, buffer
      ensures Valid()
      ensures State() == Inserted(old(State()), pointer)
    {
      if logger == null || !enabled || failed {
        return;
      }
      if pointer.None? {
        failed := true;
        return;
      }
      Append(pointer.value);
    }

    method InsertInteger(value: int, kind: IntegerKind)
      requires Valid() && kind.Min() <= value <= kind.Max()
      modifies `size, `failed, buffer
      ensures Valid()
      ensures State() == Inserted(old(State()), Integer(value, kind).Rendering())
    {
      if logger == null || !enabled || failed {
        return;
      }
      var text := ToCharsWithin(value, kind.Digits10() + 2);
      if text.None? {
        failed := true;
        return;
      }
      Append(text.value);
    }

    method InsertFloating(f: FloatingValue)
      requires Valid()
      modifies `size, `failed, buffer
      ensures Valid()
      ensures State() == Inserted(old(State()), Floating(f).Rendering())
    {
      if logger == null || !enabled || failed {
        return;
      }
      match f {
        case NaN => Append("nan");
        case Infinite(negative) => Append(if negative then "-inf" else "inf");
        case Finite(None) => failed := true;
        case Finite(Some(text)) => Append(text);
      }
    }

    /** The insertion operators. */
    method Insert(insertion: Insertion)
      requires Valid() && insertion.Valid()
      modifies `size, `failed, buffer
      ensures Valid()
      ensures State() == Inserted(old(State()), insertion.Rendering())
    {
      match insertion {
        case Characters(text) => Append(text);
        case CString(pointer) => InsertCString(pointer);
        case Character(c) => Append([c]);
        case Boolean(b) => Append(if b then "true" else "false");
        case Integer(value, kind) => InsertInteger(value, kind);
        case Floating(f) => InsertFloating(f);
      }
    }

    /** Submits the pending record if there is one to submit, and starts afresh. */
    method Flush()
      requires Valid()
      modifies `size, `failed, Destination()`submissions, Collaborators()
      ensures Valid()
      ensures State() == Flushed(old(State()))
      ensures logger != null ==>
                if Submitted(old(State())) == [] then logger.SubmittedNothing()
                else Submitted(old(State())) == [Submission(logger, level, Submitted(old(State()))[0].message)]
                     && logger.SubmittedOne(level, Submitted(old(State()))[0].message)
    {
      if logger != null && enabled && !failed && size != 0 {
        logger.Submit(level, buffer[..size]);
      }
      size := 0;
      failed := false;
    }
  }
}
