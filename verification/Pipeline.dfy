/** The logging pipeline end to end: from what a program logs to what can be read in the log. */
module Pipeline {
  import opened ConsoleRecordFormatter
  import opened Insertions
  import opened LogDecoder
  import opened Logging
  import opened LogLevels
  import opened ModelledPayload
  import opened RecordCapacity
  import opened StreamSpec
  import opened Text
  import opened Timestamps
  import opened Wrappers

  /** One modelled message that was logged: the circumstances, the id, the text, the attributes. */
  datatype Call = Call(metadata: RuntimeMetadata, level: LogLevel, context: string,
                       id: string, text: string, attributes: seq<Attribute>)

  function EntryOf(c: Call): Entry {
    Entry(c.metadata, c.level, c.context, Payload(c.id, c.text, c.attributes))
  }

  function EntriesOf(calls: seq<Call>): seq<Entry> {
    seq(|calls|, i requires 0 <= i < |calls| => EntryOf(calls[i]))
  }

  /** Reads an entry as a modelled message of a type with the given attribute kinds. */
  function CallOf(kinds: seq<Kind>, e: Entry): Option<Call> {
    var (id, text, attributes) :- DecodePayload(kinds, e.message);
    Some(Call(e.metadata, e.level, e.context, id, text, attributes))
  }

  /** `calls` are modelled messages with the given attribute kinds, and `records` their records. */
  ghost predicate Logged(kinds: seq<seq<Kind>>, calls: seq<Call>, records: seq<string>) {
    && |kinds| == |calls|
    && RecordsOf(EntriesOf(calls), records)
    && forall i :: 0 <= i < |calls| ==> IsValidMessageId(calls[i].id) && KindsOf(calls[i].attributes) == kinds[i]
  }

  /** Two layers of escaping, undone: from the bytes the sink received alone, and the static
      attribute kinds, every logged message comes back with its metadata, context, id, text, tags,
      file names and line numbers. */
  lemma ModelledLogRoundTrip(kinds: seq<seq<Kind>>, calls: seq<Call>, records: seq<string>)
    requires Logged(kinds, calls, records)
    ensures DecodeLog(Concat(records)) == Some(EntriesOf(calls))
    ensures forall i :: 0 <= i < |calls| ==> CallOf(kinds[i], EntriesOf(calls)[i]) == Some(calls[i])
  {
    LogRoundTrip(EntriesOf(calls), records);
    forall i | 0 <= i < |calls| ensures CallOf(kinds[i], EntriesOf(calls)[i]) == Some(calls[i]) {
      PayloadRoundTrip(calls[i].id, calls[i].text, calls[i].attributes);
    }
  }

  // ---- what the logger does, read back from the sink ----

  /** A modelled message as a program hands it to a logger. */
  datatype Message = Message(logger: Logger, level: LogLevel, id: string, rendering: seq<Insertion>,
                             attributes: seq<Attribute>, toLogger: bool, toTrace: bool)
  {
    predicate Valid() {
      IsValidMessageId(id) && AllValid(rendering) && ValidAttributes(attributes)
    }

    /** Whether the logger submits it. */
    predicate Submits() {
      toLogger && logger.IsEnabled(level) && AllRender(rendering)
      && |Payload(id, TextOf(rendering), attributes)| <= MESSAGE_CAPACITY
    }

    /** The entry reports this message: where and with which severity it was logged, and, by its
        attribute kinds, exactly its id, text and attributes. */
    predicate ReportedBy(e: Entry) {
      && AllRender(rendering)
      && e.level == level && e.context == logger.contextId
      && CallOf(KindsOf(attributes), e)
         == Some(Call(e.metadata, level, logger.contextId, id, TextOf(rendering), attributes))
    }
  }

  /** The entries report some of the messages, each once, in order, and nothing else. */
  predicate Reported(messages: seq<Message>, entries: seq<Entry>) {
    if messages == [] then entries == []
    else
      var init, last := messages[..|messages| - 1], messages[|messages| - 1];
      || Reported(init, entries)
      || (entries != [] && last.ReportedBy(entries[|entries| - 1]) && Reported(init, entries[..|entries| - 1]))
  }

  /** The entry that a submitted message adds, given the provider's answer: one or none. */
  function EntryFrom(m: Message, reading: Reading): seq<Entry>
    requires m.Submits()
  {
    var payload := Payload(m.id, TextOf(m.rendering), m.attributes);
    if Delivery(reading, m.level, m.logger.contextId, payload) == [] then []
    else [Entry(reading.metadata, m.level, m.logger.contextId, payload)]
  }

  /** How often the provider is asked: once for each submitted message. */
  function Submitting(messages: seq<Message>): nat {
    if messages == [] then 0
    else Submitting(messages[..|messages| - 1]) + if messages[|messages| - 1].Submits() then 1 else 0
  }

  /** The entries of a program, given the provider's answers in order. */
  function Entries(messages: seq<Message>, answers: seq<Reading>): seq<Entry>
    requires |answers| == Submitting(messages)
  {
    if messages == [] then []
    else
      var init, last := messages[..|messages| - 1], messages[|messages| - 1];
      if last.Submits() then
        Entries(init, answers[..|answers| - 1]) + EntryFrom(last, answers[|answers| - 1])
      else
        Entries(init, answers)
  }

  lemma PayloadReported(m: Message, metadata: RuntimeMetadata)
    requires m.Valid() && AllRender(m.rendering)
    ensures m.ReportedBy(Entry(metadata, m.level, m.logger.contextId,
                               Payload(m.id, TextOf(m.rendering), m.attributes)))
  {
    PayloadRoundTrip(m.id, TextOf(m.rendering), m.attributes);
  }

  lemma RecordsOneMore(entries: seq<Entry>, records: seq<string>, e: Entry, record: string)
    requires RecordsOf(entries, records) && Record(e) == Some(record)
    ensures RecordsOf(entries + [e], records + [record])
  {
  }

  lemma EntryReported(m: Message, reading: Reading)
    requires m.Valid() && m.Submits()
    ensures |EntryFrom(m, reading)| <= 1
    ensures EntryFrom(m, reading) != [] ==> m.ReportedBy(EntryFrom(m, reading)[0])
  {
    if EntryFrom(m, reading) != [] {
      PayloadReported(m, reading.metadata);
    }
  }

  lemma EntryRecorded(m: Message, reading: Reading, entries: seq<Entry>, before: seq<string>, after: seq<string>)
    requires m.Submits() && RecordsOf(entries, before)
    requires after == before + Delivery(reading, m.level, m.logger.contextId,
                                        Payload(m.id, TextOf(m.rendering), m.attributes))
    ensures RecordsOf(entries + EntryFrom(m, reading), after)
  {
    var more := EntryFrom(m, reading);
    if more == [] {
      assert entries + more == entries && after == before;
    } else {
      RecordsOneMore(entries, before, more[0], Record(more[0]).value);
    }
  }

  /** One modelled message, from the program to the bytes at the sink. When it is submitted the
      provider is asked once, and what the log decodes to gains the entry that the answer makes, if
      it makes one; otherwise nothing changes. The entry reports the message. */
  method LogOne(m: Message, trace: TraceBackend, ghost entries: seq<Entry>) returns (ghost more: seq<Entry>)
    requires m.Valid() && RecordsOf(entries, m.logger.sink.records)
    modifies m.logger`submissions, m.logger.sink, m.logger.provider, trace
    ensures RecordsOf(entries + more, m.logger.sink.records)
    ensures DecodeLog(Concat(m.logger.sink.records)) == Some(entries + more)
    ensures |more| <= 1 && (more != [] ==> m.ReportedBy(more[0]))
    ensures var readings := m.logger.provider.readings;
            if m.Submits() then
              && |readings| == |old(m.logger.provider.readings)| + 1
              && old(m.logger.provider.readings) <= readings
              && more == EntryFrom(m, readings[|readings| - 1])
            else
              readings == old(m.logger.provider.readings) && more == []
  {
    more := [];
    m.logger.LogWith(m.attributes, m.id, m.level, m.rendering, m.toLogger, m.toTrace, trace);
    if m.Submits() {
      ghost var readings, payload := m.logger.provider.readings, Payload(m.id, TextOf(m.rendering), m.attributes);
      assert payload[0] == 'i';
      ghost var reading := readings[|readings| - 1];
      more := EntryFrom(m, reading);
      EntryReported(m, reading);
      EntryRecorded(m, reading, entries, old(m.logger.sink.records), m.logger.sink.records);
    }
    LogRoundTrip(entries + more, m.logger.sink.records);
  }

  lemma EntriesOneMore(messages: seq<Message>, i: nat, answers: seq<Reading>, later: seq<Reading>)
    requires i < |messages| && |answers| == Submitting(messages[..i])
    requires answers <= later && |later| == |answers| + if messages[i].Submits() then 1 else 0
    ensures |later| == Submitting(messages[..i + 1])
    ensures Entries(messages[..i + 1], later)
         == Entries(messages[..i], answers)
            + if messages[i].Submits() then EntryFrom(messages[i], later[|later| - 1]) else []
  {
    var upTo := messages[..i + 1];
    assert upTo[..|upTo| - 1] == messages[..i] && upTo[|upTo| - 1] == messages[i];
    if messages[i].Submits() {
      assert later[..|later| - 1] == answers;
    } else {
      assert later == answers;
    }
  }

  lemma ReportedOneMore(messages: seq<Message>, i: nat, more: seq<Entry>, one: seq<Entry>)
    requires i < |messages| && Reported(messages[..i], more)
    requires |one| <= 1 && (one != [] ==> messages[i].ReportedBy(one[0]))
    ensures Reported(messages[..i + 1], more + one)
  {
    var upTo, all := messages[..i + 1], more + one;
    assert upTo[..|upTo| - 1] == messages[..i] && upTo[|upTo| - 1] == messages[i];
    if one == [] {
      assert all == more;
    } else {
      assert all[..|all| - 1] == more && all[|all| - 1] == one[0];
    }
  }

  /** Every entry of a program reports its message. */
  lemma {:induction false} EntriesReport(messages: seq<Message>, answers: seq<Reading>)
    requires (forall i :: 0 <= i < |messages| ==> messages[i].Valid()) && |answers| == Submitting(messages)
    ensures Reported(messages, Entries(messages, answers))
    decreases |messages|
  {
    if messages != [] {
      var i := |messages| - 1;
      var last, init := messages[i], messages[..i];
      assert messages[..i + 1] == messages;
      if last.Submits() {
        EntriesReport(init, answers[..|answers| - 1]);
        EntryReported(last, answers[|answers| - 1]);
        ReportedOneMore(messages, i, Entries(init, answers[..|answers| - 1]), EntryFrom(last, answers[|answers| - 1]));
      } else {
        EntriesReport(init, answers);
      }
    }
  }

  lemma EntriesAssociate(entries: seq<Entry>, more: seq<Entry>, one: seq<Entry>)
    ensures entries + more + one == entries + (more + one)
  {
  }

  lemma AnswersGrow(start: seq<Reading>, before: seq<Reading>, now: seq<Reading>)
    requires start + before <= now
    ensures now == start + now[|start|..] && before <= now[|start|..]
    ensures |now| > |start| ==> now[|now| - 1] == now[|start|..][|now| - |start| - 1]
  {
  }

  /** A whole program of modelled messages, through any number of loggers that share a sink. The
      provider is asked once for each message that is submitted, and what the sink then holds
      decodes to what it held before, followed by exactly the entries that its answers make. They
      report the messages in the order in which they were logged. */
  method LogAll(messages: seq<Message>, sink: Sink, provider: MetadataProvider, trace: TraceBackend,
                ghost entries: seq<Entry>) returns (ghost answers: seq<Reading>)
    requires forall i :: 0 <= i < |messages| ==>
               messages[i].Valid() && messages[i].logger.sink == sink && messages[i].logger.provider == provider
    requires RecordsOf(entries, sink.records)
    modifies (set i | 0 <= i < |messages| :: messages[i].logger), sink, provider, trace
    ensures provider.readings == old(provider.readings) + answers && |answers| == Submitting(messages)
    ensures DecodeLog(Concat(sink.records)) == Some(entries + Entries(messages, answers))
    ensures Reported(messages, Entries(messages, answers))
  {
    answers := [];
    ghost var start := provider.readings;
    ghost var more: seq<Entry> := [];
    assert entries + more == entries && start + answers == start;
    assert messages[..0] == [];
    for i := 0 to |messages|
      invariant RecordsOf(entries + more, sink.records)
      invariant provider.readings == start + answers
      invariant |answers| == Submitting(messages[..i]) && more == Entries(messages[..i], answers)
    {
      ghost var before := answers;
      ghost var one := LogOne(messages[i], trace, entries + more);
      answers := provider.readings[|start|..];
      AnswersGrow(start, before, provider.readings);
      EntriesOneMore(messages, i, before, answers);
      EntriesAssociate(entries, more, one);
      more := more + one;
    }
    assert messages[..|messages|] == messages;
    LogRoundTrip(entries + more, sink.records);
    EntriesReport(messages, answers);
  }

  /** The filter passes exactly the severities that the renderer has a name for, up to the
      threshold: no enabled record is lost for its level, and no unnamed severity gets through. */
  lemma FilterMatchesRenderer(logger: Logger, level: LogLevel)
    requires logger.threshold <= VERBOSE
    ensures logger.IsEnabled(level) <==> LevelName(level) != "" && level <= logger.threshold
  {
  }

  /** What it takes for a stream's record to reach the sink: with a context of at most 4055 bytes,
      exactly that the provider answers with positive ids and a four-digit year. Neither the level
      nor the size of the message can be the reason for losing it. */
  lemma DeliveryExact(reading: Reading, level: LogLevel, context: string, message: string)
    requires FATAL <= level <= VERBOSE
    requires |context| <= SAFE_CONTEXT_LENGTH && 1 <= |message| <= MESSAGE_CAPACITY
    ensures |Delivery(reading, level, context, message)| == 1
       <==> && reading.Acquired?
            && reading.metadata.processId > 0 && reading.metadata.threadId > 0
            && FIRST_MILLISECOND <= reading.metadata.unixMilliseconds as int <= LAST_MILLISECOND
  {
    if reading.Acquired? {
      var metadata := reading.metadata;
      TimestampRange(metadata.unixMilliseconds as int);
      if Renderable(metadata, level) && TimestampText(metadata.unixMilliseconds as int).Some? {
        StreamMessagesRender(metadata, level, context, message);
      }
    }
  }
}
