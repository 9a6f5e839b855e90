/** A reader for the log the console sink receives: an inverse of the record renderer, written
    from the record format alone. */
module LogDecoder {
  import opened ConsoleRecordFormatter
  import opened Decimal
  import opened LogLevels
  import opened RecordBuffers
  import opened Text
  import opened Timestamps
  import opened Wrappers

  /** What one record reports. */
  datatype Entry = Entry(metadata: RuntimeMetadata, level: LogLevel, context: string, message: string)

  /** The record of an entry, when it renders. */
  function Record(e: Entry): Option<string> {
    Rendered(e.metadata, e.level, e.context, e.message)
  }

  /** Undoes the escaping of one text; nothing when it is not an escaped text. */
  function Unescape(s: string, escapeBrackets: bool): Option<string> {
    if s == "" then Some("")
    else if s[0] == '\\' then
      if |s| == 1 then None
      else
        var c :- Unescaped(s[1], escapeBrackets);
        var rest :- Unescape(s[2..], escapeBrackets);
        Some([c] + rest)
    else if EscapedChar(s[0], escapeBrackets) != [s[0]] then None
    else
      var rest :- Unescape(s[1..], escapeBrackets);
      Some([s[0]] + rest)
  }

  /** The character a backslash and `c` stand for. */
  function Unescaped(c: char, escapeBrackets: bool): Option<char> {
    if c == '\\' then Some('\\')
    else if c == 'n' then Some('\n')
    else if c == 'r' then Some('\r')
    else if (c == '[' || c == ']') && escapeBrackets then Some(c)
    else None
  }

  /** Splits at the first closing bracket that no backslash escapes. */
  function UntilBracket(s: string): Option<(string, string)> {
    if s == "" then None
    else if s[0] == ']' then Some(("", s[1..]))
    else
      var n := if s[0] == '\\' && |s| > 1 then 2 else 1;
      var (before, after) :- UntilBracket(s[n..]);
      Some((s[..n] + before, after))
  }

  function DecodeId(s: string): Option<int64> {
    if s != "" && AllDigits(s) && Value(s) < 0x8000_0000_0000_0000 then Some(Value(s) as int64) else None
  }

  function DecodeTime(s: string): Option<int64> {
    var milliseconds :- ParseTimestamp(s);
    if FIRST_MILLISECOND <= milliseconds <= LAST_MILLISECOND then Some(milliseconds as int64) else None
  }

  /** Reads one record without its newline. */
  function DecodeLine(line: string): Option<Entry> {
    var s0 :- Strip("[", line);
    var (timeText, s1) :- Take(s0, TIMESTAMP_LENGTH);
    var time :- DecodeTime(timeText);
    var s2 :- Strip("][", s1);
    var (processText, s3) :- Until(s2, ']');
    var process :- DecodeId(processText);
    var s4 :- Strip("[", s3);
    var (threadText, s5) :- Until(s4, ']');
    var thread :- DecodeId(threadText);
    var (level, context, message) :- DecodeLabels(s5);
    Some(Entry(RuntimeMetadata(time, process, thread), level, context, message))
  }

  /** Reads the severity, the context and the message. */
  function DecodeLabels(s: string): Option<(LogLevel, string, string)> {
    var s1 :- Strip("[", s);
    var (levelText, s2) :- Until(s1, ']');
    var s3 :- Strip("[", s2);
    var (contextText, s4) :- UntilBracket(s3);
    var context :- Unescape(contextText, true);
    var messageText :- Strip(" ", s4);
    var message :- Unescape(messageText, false);
    Some((LevelOf(levelText), context, message))
  }

  function DecodeLines(lines: seq<string>): Option<seq<Entry>> {
    if lines == [] then Some([])
    else
      var e :- DecodeLine(lines[0]);
      var rest :- DecodeLines(lines[1..]);
      Some([e] + rest)
  }

  /** Reads a whole log. */
  function DecodeLog(log: string): Option<seq<Entry>> {
    var lines :- SplitLines(log);
    DecodeLines(lines)
  }

  lemma EscapedCharReads(c: char, escapeBrackets: bool, rest: string, value: string)
    requires Unescape(rest, escapeBrackets) == Some(value)
    ensures Unescape(EscapedChar(c, escapeBrackets) + rest, escapeBrackets) == Some([c] + value)
  {
    var head := EscapedChar(c, escapeBrackets);
    assert (head + rest)[|head|..] == rest;
  }

  /** Escaping and its inverse determine each other, for every byte string. */
  lemma {:induction false} EscapeRoundTrip(value: string, escapeBrackets: bool)
    ensures Unescape(Escaped(value, escapeBrackets), escapeBrackets) == Some(value)
    ensures '\n' !in Escaped(value, escapeBrackets) && '\r' !in Escaped(value, escapeBrackets)
  {
    if value != "" {
      EscapeRoundTrip(value[1..], escapeBrackets);
      assert [value[0]] + value[1..] == value;
      EscapedCharReads(value[0], escapeBrackets, Escaped(value[1..], escapeBrackets), value[1..]);
    }
  }

  /** Only escaped texts are accepted: the reader is exact, not lenient. */
  lemma {:induction false} UnescapeExact(s: string, escapeBrackets: bool)
    requires Unescape(s, escapeBrackets).Some?
    ensures Escaped(Unescape(s, escapeBrackets).value, escapeBrackets) == s
  {
    if s != "" {
      var n := if s[0] == '\\' then 2 else 1;
      UnescapeExact(s[n..], escapeBrackets);
      var v := Unescape(s, escapeBrackets).value;
      assert v[1..] == Unescape(s[n..], escapeBrackets).value;
      assert s == s[..n] + s[n..];
      assert EscapedChar(v[0], escapeBrackets) == s[..n];
    }
  }

  lemma EscapedCharPassed(c: char, tail: string, inner: string, rest: string)
    requires UntilBracket(tail) == Some((inner, rest))
    ensures UntilBracket(EscapedChar(c, true) + tail) == Some((EscapedChar(c, true) + inner, rest))
  {
    var head := EscapedChar(c, true);
    assert (head + tail)[|head|..] == tail && (head + tail)[..|head|] == head;
  }

  lemma {:induction false} EscapedContextEnds(value: string, rest: string)
    ensures UntilBracket(Escaped(value, true) + "]" + rest) == Some((Escaped(value, true), rest))
  {
    var s := Escaped(value, true) + "]" + rest;
    if value == "" {
      assert s[1..] == rest;
    } else {
      EscapedContextEnds(value[1..], rest);
      var head, inner := EscapedChar(value[0], true), Escaped(value[1..], true);
      Associate(head, inner, "]");
      Associate(head, inner + "]", rest);
      assert s == head + (inner + "]" + rest);
      EscapedCharPassed(value[0], inner + "]" + rest, inner, rest);
    }
  }

  lemma IdReads(id: int64)
    requires id > 0
    ensures DecodeId(ToChars(id as int)) == Some(id)
    ensures ']' !in ToChars(id as int) && '\n' !in ToChars(id as int)
  {
    NaturalValue(id as int);
  }

  lemma LevelReads(level: LogLevel)
    requires LevelName(level) != ""
    ensures LevelOf(LevelName(level)) == level
    ensures ']' !in LevelName(level) && '\n' !in LevelName(level)
  {
  }

  lemma {:induction false} PrintKeepsOneLine(values: seq<int>, layout: seq<Field>)
    requires Fits(values, layout)
    requires forall i :: 0 <= i < |layout| ==> '\n' !in layout[i].separator
    ensures '\n' !in Print(values, layout)
  {
    if values != [] {
      PaddedField(values[0], layout[0].width);
      PrintKeepsOneLine(values[1..], layout[1..]);
    }
  }

  lemma TimeReads(milliseconds: int64)
    requires TimestampText(milliseconds as int).Some?
    ensures DecodeTime(TimestampText(milliseconds as int).value) == Some(milliseconds)
    ensures |TimestampText(milliseconds as int).value| == TIMESTAMP_LENGTH
    ensures '\n' !in TimestampText(milliseconds as int).value
  {
    TimestampRange(milliseconds as int);
    TimestampRoundTrip(milliseconds as int);
    SecondTextOneLine(milliseconds as int / 1000, milliseconds as int % 1000);
  }

  lemma SecondTextOneLine(seconds: int, milliseconds: int)
    requires SecondText(seconds, milliseconds).Some? && 0 <= milliseconds < 1000
    ensures '\n' !in SecondText(seconds, milliseconds).value
  {
    Calendar.BreakdownInverts(seconds);
    var tm := Calendar.Breakdown(seconds);
    ValidFieldsFit(tm, milliseconds);
    PrintKeepsOneLine(TmValues(tm, milliseconds), LAYOUT);
  }

  /** A record line, nested the way it is read. */
  function LineText(timestamp: string, process: string, thread: string, labels: string): string {
    "[" + (timestamp + ("][" + (process + [']'] + ("[" + (thread + [']'] + labels)))))
  }

  function LabelsLine(name: string, context: string, message: string): string {
    "[" + (name + [']'] + ("[" + (context + "]" + (" " + message))))
  }

  lemma LabelsNesting(name: string, context: string, message: string)
    ensures "][" + name + "][" + context + "] " + message == "]" + LabelsLine(name, context, message)
  {
    assert "][" == "]" + "[" && "] " == "]" + " ";
  }

  lemma LineNesting(timestamp: string, process: string, thread: string, labels: string)
    ensures "[" + timestamp + ("][" + process + "][" + thread) + ("]" + labels)
         == LineText(timestamp, process, thread, labels)
  {
    assert "][" == "]" + "[";
  }

  lemma LabelsLineReads(name: string, context: string, message: string)
    requires ']' !in name
    requires Unescape(message, false).Some?
    requires Unescape(context, true).Some? && context == Escaped(Unescape(context, true).value, true)
    ensures DecodeLabels(LabelsLine(name, context, message))
         == Some((LevelOf(name), Unescape(context, true).value, Unescape(message, false).value))
  {
    var s4 := " " + message;
    var s3 := context + "]" + s4;
    var s2 := "[" + s3;
    StripConcat("[", name + [']'] + s2);
    UntilConcat(name, ']', s2);
    StripConcat("[", s3);
    EscapedContextEnds(Unescape(context, true).value, s4);
    StripConcat(" ", message);
  }

  lemma LineTextReads(timestamp: string, process: string, thread: string, labels: string)
    requires |timestamp| == TIMESTAMP_LENGTH && ']' !in process && ']' !in thread
    requires DecodeTime(timestamp).Some? && DecodeId(process).Some? && DecodeId(thread).Some?
    requires DecodeLabels(labels).Some?
    ensures DecodeLine(LineText(timestamp, process, thread, labels)) ==
              var (level, context, message) := DecodeLabels(labels).value;
              Some(Entry(RuntimeMetadata(DecodeTime(timestamp).value, DecodeId(process).value, DecodeId(thread).value),
                         level, context, message))
  {
    var s5 := labels;
    var s4 := thread + [']'] + s5;
    var s3 := "[" + s4;
    var s2 := process + [']'] + s3;
    var s1 := "][" + s2;
    StripConcat("[", timestamp + s1);
    TakeConcat(timestamp, s1);
    StripConcat("][", s2);
    UntilConcat(process, ']', s3);
    StripConcat("[", s4);
    UntilConcat(thread, ']', s5);
  }

  /** The line of an entry with a given timestamp text. */
  function LineOf(timestamp: string, e: Entry): string {
    LineText(timestamp, ToChars(e.metadata.processId as int), ToChars(e.metadata.threadId as int),
             LabelsLine(LevelName(e.level), Escaped(e.context, true), Escaped(e.message, false)))
  }

  lemma RecordIsLine(timestamp: string, e: Entry)
    ensures RecordText(timestamp, e.metadata, e.level, e.context, e.message) == LineOf(timestamp, e) + ['\n']
  {
    var process, thread := ToChars(e.metadata.processId as int), ToChars(e.metadata.threadId as int);
    var name, context, message := LevelName(e.level), Escaped(e.context, true), Escaped(e.message, false);
    LabelsNesting(name, context, message);
    LineNesting(timestamp, process, thread, LabelsLine(name, context, message));
    assert "[" + timestamp + IdsText(e.metadata) + LabelsText(e.level, e.context) + message
        == "[" + timestamp + IdsText(e.metadata) + (LabelsText(e.level, e.context) + message);
  }

  lemma OneLine(timestamp: string, process: string, thread: string, name: string, context: string, message: string)
    requires '\n' !in timestamp && '\n' !in process && '\n' !in thread
    requires '\n' !in name && '\n' !in context && '\n' !in message
    ensures '\n' !in LineText(timestamp, process, thread, LabelsLine(name, context, message))
  {
    assert '\n' !in LabelsLine(name, context, message);
  }

  /** A record is one line, and that line decodes to the entry it was rendered from. */
  lemma LineReads(timestamp: string, e: Entry)
    requires Renderable(e.metadata, e.level)
    requires TimestampText(e.metadata.unixMilliseconds as int) == Some(timestamp)
    ensures '\n' !in LineOf(timestamp, e)
    ensures DecodeLine(LineOf(timestamp, e)) == Some(e)
  {
    TimeReads(e.metadata.unixMilliseconds);
    IdReads(e.metadata.processId);
    IdReads(e.metadata.threadId);
    LevelReads(e.level);
    EscapeRoundTrip(e.context, true);
    EscapeRoundTrip(e.message, false);
    OneLine(timestamp, ToChars(e.metadata.processId as int), ToChars(e.metadata.threadId as int),
            LevelName(e.level), Escaped(e.context, true), Escaped(e.message, false));
    LabelsLineReads(LevelName(e.level), Escaped(e.context, true), Escaped(e.message, false));
    LineTextReads(timestamp, ToChars(e.metadata.processId as int), ToChars(e.metadata.threadId as int),
                  LabelsLine(LevelName(e.level), Escaped(e.context, true), Escaped(e.message, false)));
  }

  /** The record of an entry is one line, which decodes to the entry. */
  lemma RecordReads(e: Entry) returns (line: string)
    requires Record(e).Some?
    ensures Record(e).value == line + ['\n'] && '\n' !in line
    ensures DecodeLine(line) == Some(e)
  {
    var timestamp := TimestampText(e.metadata.unixMilliseconds as int).value;
    line := LineOf(timestamp, e);
    RecordIsLine(timestamp, e);
    LineReads(timestamp, e);
  }

  /** `records` are the records of `entries`, every one of which renders. */
  ghost predicate RecordsOf(entries: seq<Entry>, records: seq<string>) {
    |entries| == |records| && forall i :: 0 <= i < |entries| ==> Record(entries[i]) == Some(records[i])
  }

  lemma LineThenLog(line: string, e: Entry, rest: string, entries: seq<Entry>)
    requires '\n' !in line && DecodeLine(line) == Some(e) && DecodeLog(rest) == Some(entries)
    ensures DecodeLog(line + ['\n'] + rest) == Some([e] + entries)
  {
    UntilConcat(line, '\n', rest);
    var lines := SplitLines(rest).value;
    assert ([line] + lines)[1..] == lines;
  }

  /** The log is uniquely decodable: whatever bytes the contexts and messages hold, the
      concatenation of the records reads back as exactly the entries, in order. */
  lemma {:induction false} LogRoundTrip(entries: seq<Entry>, records: seq<string>)
    requires RecordsOf(entries, records)
    ensures DecodeLog(Concat(records)) == Some(entries)
  {
    if entries != [] {
      assert Record(entries[0]) == Some(records[0]);
      var line := RecordReads(entries[0]);
      assert RecordsOf(entries[1..], records[1..]);
      LogRoundTrip(entries[1..], records[1..]);
      LineThenLog(line, entries[0], Concat(records[1..]), entries[1..]);
      assert [entries[0]] + entries[1..] == entries;
    }
  }
}
