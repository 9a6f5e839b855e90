/** How long a record is, and which inputs always fit the record buffer. */
module RecordCapacity {
  import opened ConsoleRecordFormatter
  import opened Decimal
  import opened LogLevels
  import opened RecordBuffers
  import opened StreamSpec
  import opened Text
  import opened Timestamps
  import opened Wrappers

  const SAFE_CONTEXT_LENGTH := 4055

  /** What the longest ids, level and message leave for an escaped context. */
  const SAFE_ESCAPED_LENGTH := 8111

  /** How many characters of a text need a backslash. */
  function EscapeCount(value: string, escapeBrackets: bool): nat {
    if value == "" then 0
    else
      (if EscapedChar(value[0], escapeBrackets) == [value[0]] then 0 else 1) + EscapeCount(value[1..], escapeBrackets)
  }

  lemma {:induction false} EscapedLength(value: string, escapeBrackets: bool)
    ensures |Escaped(value, escapeBrackets)| == |value| + EscapeCount(value, escapeBrackets)
    ensures EscapeCount(value, escapeBrackets) <= |value|
  {
    if value != "" {
      EscapedLength(value[1..], escapeBrackets);
    }
  }

  function FieldsLength(metadata: RuntimeMetadata, level: LogLevel, context: string, message: string): nat {
    |ToChars(metadata.processId as int)| + |ToChars(metadata.threadId as int)| + |LevelName(level)|
    + |Escaped(context, true)| + |Escaped(message, false)|
  }

  lemma RecordLength(timestamp: string, metadata: RuntimeMetadata, level: LogLevel, context: string, message: string)
    requires |timestamp| == TIMESTAMP_LENGTH
    ensures |RecordText(timestamp, metadata, level, context, message)|
         == 36 + FieldsLength(metadata, level, context, message)
  {
  }

  /** With positive ids, a defined level and a four-digit year, a record renders exactly when its
      fields leave room for the 36 characters around them. */
  lemma CapacityExact(metadata: RuntimeMetadata, level: LogLevel, context: string, message: string)
    requires Renderable(metadata, level)
    requires FIRST_MILLISECOND <= metadata.unixMilliseconds as int <= LAST_MILLISECOND
    ensures Rendered(metadata, level, context, message).Some?
       <==> 36 + FieldsLength(metadata, level, context, message) <= RECORD_CAPACITY
  {
    TimestampRange(metadata.unixMilliseconds as int);
    RecordLength(TimestampText(metadata.unixMilliseconds as int).value, metadata, level, context, message);
  }

  /** A submission that nothing but the size of its record can lose. */
  predicate LegalSubmission(metadata: RuntimeMetadata, level: LogLevel, message: string) {
    && Renderable(metadata, level)
    && FIRST_MILLISECOND <= metadata.unixMilliseconds as int <= LAST_MILLISECOND
    && |message| <= MESSAGE_CAPACITY
  }

  /** Whatever is logged under the context renders. */
  ghost predicate AlwaysRenders(context: string) {
    forall metadata: RuntimeMetadata, level: LogLevel, message: string ::
      LegalSubmission(metadata, level, message) ==> Rendered(metadata, level, context, message).Some?
  }

  lemma SafeContextRenders(metadata: RuntimeMetadata, level: LogLevel, context: string, message: string)
    requires LegalSubmission(metadata, level, message) && |Escaped(context, true)| <= SAFE_ESCAPED_LENGTH
    ensures Rendered(metadata, level, context, message).Some?
  {
    EscapedLength(message, false);
    Int64TextLength(metadata.processId);
    Int64TextLength(metadata.threadId);
    CapacityExact(metadata, level, context, message);
  }

  /** A message a stream can hold is never lost to the record capacity, whatever its bytes, as
      long as the context has at most 4055 bytes. */
  lemma StreamMessagesRender(metadata: RuntimeMetadata, level: LogLevel, context: string, message: string)
    requires LegalSubmission(metadata, level, message) && |context| <= SAFE_CONTEXT_LENGTH
    ensures Rendered(metadata, level, context, message).Some?
  {
    EscapedLength(context, true);
    SafeContextRenders(metadata, level, context, message);
  }

  lemma {:induction false} BackslashesDouble(n: nat, escapeBrackets: bool)
    ensures EscapeCount(Repeat('\\', n), escapeBrackets) == n
  {
    if n > 0 {
      assert Repeat('\\', n)[1..] == Repeat('\\', n - 1);
      BackslashesDouble(n - 1, escapeBrackets);
    }
  }

  const LARGEST_ID: int64 := 1_000_000_000_000_000_000

  lemma LongestId()
    ensures |ToChars(LARGEST_ID as int)| == 19
  {
    LargePowers();
    NaturalLength(LARGEST_ID as int, 18);
    Int64TextLength(LARGEST_ID);
  }

  lemma LongestMessage()
    ensures |Escaped(Repeat('\\', MESSAGE_CAPACITY), false)| == 2 * MESSAGE_CAPACITY
  {
    BackslashesDouble(MESSAGE_CAPACITY, false);
    EscapedLength(Repeat('\\', MESSAGE_CAPACITY), false);
  }

  /** The longest fields there are. */
  lemma LongestFields(context: string)
    ensures var metadata, message := RuntimeMetadata(0, LARGEST_ID, LARGEST_ID), Repeat('\\', MESSAGE_CAPACITY);
            && LegalSubmission(metadata, VERBOSE, message)
            && 36 + FieldsLength(metadata, VERBOSE, context, message)
               == RECORD_CAPACITY - SAFE_ESCAPED_LENGTH + |Escaped(context, true)|
  {
    LongestId();
    LongestMessage();
  }

  /** Exactly which contexts are safe: every message of every stream renders under a context if and
      only if the escaped context has at most 8111 characters. */
  lemma SafeContextExact(context: string)
    ensures AlwaysRenders(context) <==> |Escaped(context, true)| <= SAFE_ESCAPED_LENGTH
  {
    if |Escaped(context, true)| <= SAFE_ESCAPED_LENGTH {
      forall metadata: RuntimeMetadata, level: LogLevel, message: string | LegalSubmission(metadata, level, message)
        ensures Rendered(metadata, level, context, message).Some?
      {
        SafeContextRenders(metadata, level, context, message);
      }
    } else {
      var metadata, message := RuntimeMetadata(0, LARGEST_ID, LARGEST_ID), Repeat('\\', MESSAGE_CAPACITY);
      LongestFields(context);
      CapacityExact(metadata, VERBOSE, context, message);
      assert Rendered(metadata, VERBOSE, context, message).None?;
    }
  }

  /** The bound of 4055 bytes is the best one that only looks at the length: one byte more and a
      context may lose a message. */
  lemma ContextBoundIsTight()
    ensures exists context: string :: |context| == SAFE_CONTEXT_LENGTH + 1 && !AlwaysRenders(context)
  {
    var context := Repeat('\\', SAFE_CONTEXT_LENGTH + 1);
    BackslashesDouble(|context|, true);
    EscapedLength(context, true);
    SafeContextExact(context);
    assert |context| == SAFE_CONTEXT_LENGTH + 1 && !AlwaysRenders(context);
  }
}
