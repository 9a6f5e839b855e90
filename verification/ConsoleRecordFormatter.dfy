/** Rendering of one console record: `[timestamp][pid][tid][LEVEL][context] message` and a newline. */
module ConsoleRecordFormatter {
  import opened Calendar
  import opened Decimal
  import opened LogLevels
  import opened RecordBuffers
  import opened Text
  import opened Timestamps
  import opened Wrappers

  newtype int64 = x: int | -0x8000_0000_0000_0000 <= x < 0x8000_0000_0000_0000

  datatype RuntimeMetadata = RuntimeMetadata(unixMilliseconds: int64, processId: int64, threadId: int64)

  /** The text that stands for one character of a context or a message. */
  function EscapedChar(c: char, escapeBrackets: bool): (s: string)
    ensures 1 <= |s| <= 2
  {
    if c == '\\' then "\\\\"
    else if c == '\n' then "\\n"
    else if c == '\r' then "\\r"
    else if c == '[' && escapeBrackets then "\\["
    else if c == ']' && escapeBrackets then "\\]"
    else [c]
  }

  function Escaped(value: string, escapeBrackets: bool): string {
    if value == "" then "" else EscapedChar(value[0], escapeBrackets) + Escaped(value[1..], escapeBrackets)
  }

  lemma {:induction false} EscapedSnoc(value: string, c: char, escapeBrackets: bool)
    ensures Escaped(value + [c], escapeBrackets) == Escaped(value, escapeBrackets) + EscapedChar(c, escapeBrackets)
  {
    if value == "" {
      assert value + [c] == [c];
    } else {
      assert (value + [c])[1..] == value[1..] + [c];
      EscapedSnoc(value[1..], c, escapeBrackets);
    }
  }

  lemma {:induction false} EscapedPrefix(value: string, n: nat, escapeBrackets: bool)
    requires n <= |value|
    ensures Escaped(value[..n], escapeBrackets) <= Escaped(value, escapeBrackets)
  {
    if n > 0 {
      assert value[..n][1..] == value[1..][..n - 1];
      EscapedPrefix(value[1..], n - 1, escapeBrackets);
    }
  }

  lemma EscapedStep(value: string, i: nat, escapeBrackets: bool)
    requires i < |value|
    ensures Escaped(value[..i + 1], escapeBrackets)
         == Escaped(value[..i], escapeBrackets) + EscapedChar(value[i], escapeBrackets)
    ensures Escaped(value[..i], escapeBrackets) <= Escaped(value, escapeBrackets)
    ensures Escaped(value[..i + 1], escapeBrackets) <= Escaped(value, escapeBrackets)
  {
    assert value[..i + 1] == value[..i] + [value[i]];
    EscapedSnoc(value[..i], value[i], escapeBrackets);
    EscapedPrefix(value, i, escapeBrackets);
    EscapedPrefix(value, i + 1, escapeBrackets);
  }

  /** The fields between the timestamp and the message. */
  function IdsText(metadata: RuntimeMetadata): string {
    "][" + ToChars(metadata.processId as int) + "][" + ToChars(metadata.threadId as int)
  }

  function LabelsText(level: LogLevel, context: string): string {
    "][" + LevelName(level) + "][" + Escaped(context, true) + "] "
  }

  /** The text a record must be. */
  function RecordText(timestamp: string, metadata: RuntimeMetadata, level: LogLevel, context: string, message: string)
    : string
  {
    "[" + timestamp + IdsText(metadata) + LabelsText(level, context) + Escaped(message, false) + "\n"
  }

  /** What the renderer demands of the metadata and the level, apart from the year. */
  predicate Renderable(metadata: RuntimeMetadata, level: LogLevel) {
    LevelName(level) != "" && metadata.processId > 0 && metadata.threadId > 0
  }

  /** The record of one submission, or nothing when it cannot be rendered. */
  function Rendered(metadata: RuntimeMetadata, level: LogLevel, context: string, message: string): Option<string> {
    var timestamp :- TimestampText(metadata.unixMilliseconds as int);
    var text := RecordText(timestamp, metadata, level, context, message);
    if Renderable(metadata, level) && |text| <= RECORD_CAPACITY then Some(text) else None
  }

  /** C++ division: truncation toward zero. */
  function TruncatedDivide(a: int64, b: int64): int64
    requires b > 0
  {
    if a >= 0 then a / b else -((-(a as int)) / (b as int)) as int64
  }

  /** C++ remainder: it has the sign of the dividend. */
  function TruncatedModulo(a: int64, b: int64): int64
    requires b > 0
  {
    (a as int - TruncatedDivide(a, b) as int * b as int) as int64
  }

  lemma StoppedShort(before: string, done: string, piece: string, all: string)
    requires done <= all && done + piece <= all && |before + done| + |piece| > RECORD_CAPACITY
    ensures Appended(before, all, before + done, false)
  {
    assert all == done + all[|done|..];
    Associate(before, done, all[|done|..]);
  }

  method AppendEscaped(output: RecordBuffer, value: string, escapeBrackets: bool) returns (ok: bool)
    requires output.Valid()
    modifies output`size, output.buffer
    ensures output.Valid()
    ensures Appended(old(output.View()), Escaped(value, escapeBrackets), output.View(), ok)
  {
    ghost var before := output.View();
    for i := 0 to |value|
      invariant output.Valid()
      invariant output.View() == before + Escaped(value[..i], escapeBrackets)
    {
      var c := value[i];
      var replacement;
      match c {
        case '\\' => replacement := "\\\\";
        case '\n' => replacement := "\\n";
        case '\r' => replacement := "\\r";
        case '[' => replacement := if escapeBrackets then "\\[" else "[";
        case ']' => replacement := if escapeBrackets then "\\]" else "]";
        case _ => replacement := [c];
      }
      assert replacement == EscapedChar(c, escapeBrackets);
      EscapedStep(value, i, escapeBrackets);
      var appended := output.Append(replacement);
      if !appended {
        StoppedShort(before, Escaped(value[..i], escapeBrackets), replacement, Escaped(value, escapeBrackets));
        return false;
      }
      Associate(before, Escaped(value[..i], escapeBrackets), replacement);
    }
    assert value[..|value|] == value;
    return true;
  }

  /** The text of a 64-bit integer fits the `digits10 + 2` characters set aside for it. */
  lemma Int64TextLength(value: int64)
    ensures |ToChars(value as int)| <= 20
    ensures value >= 0 ==> |ToChars(value as int)| <= 19
  {
    var magnitude := if value < 0 then -(value as int) else value as int;
    LargePowers();
    NaturalLength(magnitude, 19);
  }

  method AppendDecimal(output: RecordBuffer, value: int64) returns (ok: bool)
    requires output.Valid()
    modifies output`size, output.buffer
    ensures output.Valid()
    ensures Appended(old(output.View()), ToChars(value as int), output.View(), ok)
  {
    var text := ToChars(value as int);
    Int64TextLength(value);
    if |text| > 20 {
      return false;
    }
    ok := output.Append(text);
  }

  /** Truncating division, then the fix-up of a negative remainder, is division rounding down. */
  lemma FloorBySteps(value: int64)
    ensures var q, r := TruncatedDivide(value, 1000) as int, TruncatedModulo(value, 1000) as int;
            if r < 0 then q - 1 == value as int / 1000 && r + 1000 == value as int % 1000
            else q == value as int / 1000 && r == value as int % 1000
  {
    if value < 0 {
      var n := -(value as int);
      assert n == 1000 * (n / 1000) + n % 1000;
      if n % 1000 == 0 {
        assert value as int == 1000 * (-(n / 1000));
      } else {
        assert value as int == 1000 * (-(n / 1000) - 1) + (1000 - n % 1000);
      }
    }
  }

  method AppendTimestamp(output: RecordBuffer, unixMilliseconds: int64) returns (ok: bool)
    requires output.Valid()
    modifies output`size, output.buffer
    ensures output.Valid()
    ensures TimestampText(unixMilliseconds as int).None? ==> !ok && output.View() == old(output.View())
    ensures TimestampText(unixMilliseconds as int).Some? ==>
              Appended(old(output.View()), TimestampText(unixMilliseconds as int).value, output.View(), ok)
  {
    var seconds := TruncatedDivide(unixMilliseconds, 1000);
    var milliseconds := TruncatedModulo(unixMilliseconds, 1000);
    FloorBySteps(unixMilliseconds);
    if milliseconds < 0 {
      seconds := seconds - 1;
      milliseconds := milliseconds + 1000;
    }
    assert seconds as int == unixMilliseconds as int / 1000 && milliseconds as int == unixMilliseconds as int % 1000;
    var utc := GmTime(seconds as int);
    if utc.None? {
      return false;
    }
    if utc.value.tmYear < 0 - TM_YEAR_BASE || utc.value.tmYear > 9999 - TM_YEAR_BASE {
      return false;
    }
    var text := Print(TmValues(utc.value, milliseconds as int), LAYOUT);
    TimestampRange(unixMilliseconds as int);
    if |text| != TIMESTAMP_LENGTH {
      return false;
    }
    ok := output.Append(text);
  }

  /** One more link of the short-circuit chain: tried only if everything before it succeeded. */
  lemma Link(start: string, text: string, before: string, wasOk: bool, piece: string, after: string, ok: bool)
    requires Appended(start, text, before, wasOk)
    requires if wasOk then Appended(before, piece, after, ok) else after == before && !ok
    ensures Appended(start, text + piece, after, ok)
  {
    assert start + (text + piece) == start + text + piece;
  }

  method AppendIds(metadata: RuntimeMetadata, output: RecordBuffer) returns (ok: bool)
    requires output.Valid()
    modifies output`size, output.buffer
    ensures output.Valid()
    ensures Appended(old(output.View()), IdsText(metadata), output.View(), ok)
  {
    ghost var start := output.View();
    ok := output.Append("][");
    ghost var text, view, was := "][", output.View(), ok;
    if ok {
      ok := AppendDecimal(output, metadata.processId);
    }
    Link(start, text, view, was, ToChars(metadata.processId as int), output.View(), ok);
    text, view, was := text + ToChars(metadata.processId as int), output.View(), ok;
    if ok {
      ok := output.Append("][");
    }
    Link(start, text, view, was, "][", output.View(), ok);
    text, view, was := text + "][", output.View(), ok;
    if ok {
      ok := AppendDecimal(output, metadata.threadId);
    }
    Link(start, text, view, was, ToChars(metadata.threadId as int), output.View(), ok);
    text, view, was := text + ToChars(metadata.threadId as int), output.View(), ok;
    assert text == IdsText(metadata);
  }

  method AppendLabels(level: LogLevel, context: string, output: RecordBuffer) returns (ok: bool)
    requires output.Valid()
    modifies output`size, output.buffer
    ensures output.Valid()
    ensures Appended(old(output.View()), LabelsText(level, context), output.View(), ok)
  {
    ghost var start := output.View();
    ok := output.Append("][");
    ghost var text, view, was := "][", output.View(), ok;
    if ok {
      ok := output.Append(LevelName(level));
    }
    Link(start, text, view, was, LevelName(level), output.View(), ok);
    text, view, was := text + LevelName(level), output.View(), ok;
    if ok {
      ok := output.Append("][");
    }
    Link(start, text, view, was, "][", output.View(), ok);
    text, view, was := text + "][", output.View(), ok;
    if ok {
      ok := AppendEscaped(output, context, true);
    }
    Link(start, text, view, was, Escaped(context, true), output.View(), ok);
    text, view, was := text + Escaped(context, true), output.View(), ok;
    if ok {
      ok := output.Append("] ");
    }
    Link(start, text, view, was, "] ", output.View(), ok);
    text, view, was := text + "] ", output.View(), ok;
    assert text == LabelsText(level, context);
  }

  /** Everything after the timestamp. */
  function FieldsText(metadata: RuntimeMetadata, level: LogLevel, context: string, message: string): string {
    IdsText(metadata) + LabelsText(level, context) + Escaped(message, false) + "\n"
  }

  lemma RecordFields(timestamp: string, metadata: RuntimeMetadata, level: LogLevel, context: string, message: string)
    ensures "[" + timestamp + FieldsText(metadata, level, context, message)
         == RecordText(timestamp, metadata, level, context, message)
  {
    var start, ids := "[" + timestamp, IdsText(metadata);
    var labels, rest := LabelsText(level, context), Escaped(message, false);
    Associate(start, ids + labels + rest, "\n");
    Associate(start, ids + labels, rest);
    Associate(start, ids, labels);
  }

  method AppendFields(metadata: RuntimeMetadata, level: LogLevel, context: string, message: string,
                      output: RecordBuffer) returns (ok: bool)
    requires output.Valid()
    modifies output`size, output.buffer
    ensures output.Valid()
    ensures Appended(old(output.View()), FieldsText(metadata, level, context, message), output.View(), ok)
  {
    ghost var start := output.View();
    ok := AppendIds(metadata, output);
    ghost var text, view, was := IdsText(metadata), output.View(), ok;
    if ok {
      ok := AppendLabels(level, context, output);
    }
    Link(start, text, view, was, LabelsText(level, context), output.View(), ok);
    text, view, was := text + LabelsText(level, context), output.View(), ok;
    if ok {
      ok := AppendEscaped(output, message, false);
    }
    Link(start, text, view, was, Escaped(message, false), output.View(), ok);
    text, view, was := text + Escaped(message, false), output.View(), ok;
    if ok {
      ok := output.Append("\n");
    }
    Link(start, text, view, was, "\n", output.View(), ok);
  }

  /** How the chain of appends ends: stopped at the timestamp, or by the capacity, or complete. */
  ghost predicate ChainOutcome(timestamp: Option<string>, metadata: RuntimeMetadata, level: LogLevel, context: string,
                               message: string, view: string, ok: bool) {
    match timestamp
    case None => !ok && view == "["
    case Some(text) => Appended("", RecordText(text, metadata, level, context, message), view, ok)
  }

  lemma RenderOutcome(metadata: RuntimeMetadata, level: LogLevel, context: string, message: string, view: string,
                      ok: bool)
    requires Renderable(metadata, level)
    requires ChainOutcome(TimestampText(metadata.unixMilliseconds as int), metadata, level, context, message, view, ok)
    ensures ok <==> Rendered(metadata, level, context, message).Some?
    ensures ok ==> view == Rendered(metadata, level, context, message).value
  {
  }

  /** The short-circuit chain of the renderer, on an empty buffer. */
  method AppendRecord(metadata: RuntimeMetadata, level: LogLevel, context: string, message: string,
                      output: RecordBuffer) returns (ok: bool)
    requires output.Valid() && output.View() == ""
    modifies output`size, output.buffer
    ensures output.Valid()
    ensures ChainOutcome(TimestampText(metadata.unixMilliseconds as int), metadata, level, context, message,
                         output.View(), ok)
  {
    TimestampRange(metadata.unixMilliseconds as int);
    ghost var timestamp := TimestampText(metadata.unixMilliseconds as int);
    ok := output.Append("[");
    if ok {
      ok := AppendTimestamp(output, metadata.unixMilliseconds);
    }
    if !ok {
      return;
    }
    ghost var text, view := "[" + timestamp.value, output.View();
    ok := AppendFields(metadata, level, context, message, output);
    Link("", text, view, true, FieldsText(metadata, level, context, message), output.View(), ok);
    RecordFields(timestamp.value, metadata, level, context, message);
  }

  /** Renders into an empty buffer. A refused record leaves at most a prefix of its text behind. */
  method RenderConsoleRecord(metadata: RuntimeMetadata, level: LogLevel, context: string, message: string,
                             output: RecordBuffer) returns (ok: bool)
    requires output.Valid()
    modifies output`size, output.buffer
    ensures output.Valid()
    ensures ok <==> old(output.View()) == "" && Rendered(metadata, level, context, message).Some?
    ensures ok ==> output.View() == Rendered(metadata, level, context, message).value
    ensures old(output.View()) != "" || !Renderable(metadata, level) ==> output.View() == old(output.View())
    ensures old(output.View()) == "" && Renderable(metadata, level) ==>
              ChainOutcome(TimestampText(metadata.unixMilliseconds as int), metadata, level, context, message,
                           output.View(), ok)
  {
    var levelName := LevelName(level);
    if output.View() != "" || levelName == "" || metadata.processId <= 0 || metadata.threadId <= 0 {
      return false;
    }
    ok := AppendRecord(metadata, level, context, message, output);
    RenderOutcome(metadata, level, context, message, output.View(), ok);
  }
}
