/** Reading the clock and the ids, and what becomes of the clock's value on its way to the log. */
module MetadataProviders {
  import opened Calendar
  import opened ConsoleRecordFormatter
  import opened Timestamps
  import opened Wrappers

  const MAX_INT64: int64 := 0x7FFF_FFFF_FFFF_FFFF
  const MIN_INT64: int64 := -0x8000_0000_0000_0000

  predicate IsInt64(x: int) {
    -0x8000_0000_0000_0000 <= x < 0x8000_0000_0000_0000
  }

  /** A `timespec` as `clock_gettime` fills it. */
  datatype TimeSpec = TimeSpec(seconds: int64, nanoseconds: int64) {
    predicate Valid() {
      0 <= nanoseconds < 1_000_000_000
    }

    function Milliseconds(): int {
      seconds as int * 1000 + nanoseconds as int / 1_000_000
    }
  }

  /** Neither step of the conversion to milliseconds leaves the 64-bit range. */
  predicate Converts(clock: TimeSpec) {
    IsInt64(clock.seconds as int * 1000) && IsInt64(clock.Milliseconds())
  }

  const LOST_SECOND: int64 := -9223372036854776

  /** Of the instants whose milliseconds are representable, exactly those in one second are refused. */
  lemma RefusedInstants(clock: TimeSpec)
    requires clock.Valid() && IsInt64(clock.Milliseconds())
    ensures Converts(clock) <==> clock.seconds != LOST_SECOND
  {
    assert 0 <= clock.nanoseconds as int / 1_000_000 < 1000;
  }

  /** One of them. */
  lemma RefusedInstant()
    ensures var clock := TimeSpec(LOST_SECOND, 999_000_000);
            clock.Valid() && IsInt64(clock.Milliseconds()) && !Converts(clock)
  {
    RefusedInstants(TimeSpec(LOST_SECOND, 999_000_000));
  }

  /** One reading. `clock` is what `clock_gettime` yields, `processId` and `threadId` the answers
      of `getpid` and `gettid`; `current` is the caller's metadata, replaced only on success. It
      succeeds exactly when the ids are positive and neither step of the conversion to
      milliseconds leaves the 64-bit range. */
  method Read(clock: Option<TimeSpec>, processId: int64, threadId: int64, current: RuntimeMetadata)
    returns (success: bool, metadata: RuntimeMetadata)
    requires clock.Some? ==> clock.value.Valid()
    ensures success <==>
              clock.Some? && processId > 0 && threadId > 0 && Converts(clock.value)
    ensures success ==>
              && metadata.unixMilliseconds as int == clock.value.Milliseconds()
              && metadata.processId == processId && metadata.threadId == threadId
    ensures !success ==> metadata == current
  {
    success, metadata := false, current;
    if clock.Some? {
      var seconds := clock.value.seconds;
      var milliseconds := TruncatedDivide(clock.value.nanoseconds, 1_000_000);
      if processId > 0 && threadId > 0 && seconds >= TruncatedDivide(MIN_INT64, 1000)
         && seconds <= TruncatedDivide(MAX_INT64 - milliseconds, 1000) {
        metadata := RuntimeMetadata(seconds * 1000 + milliseconds, processId, threadId);
        success := true;
      }
    }
  }

  /** The formatter's seconds and milliseconds: a truncating division, then the fix-up of a
      negative remainder. */
  function FixedUp(unixMilliseconds: int64): (int, int) {
    var seconds := TruncatedDivide(unixMilliseconds, 1000) as int;
    var milliseconds := TruncatedModulo(unixMilliseconds, 1000) as int;
    if milliseconds < 0 then (seconds - 1, milliseconds + 1000) else (seconds, milliseconds)
  }

  /** Composing the two conversions loses only the sub-millisecond part: before and after 1970 the
      formatter recovers the clock's own seconds and whole milliseconds, and what it prints reads
      back as that instant. */
  lemma ClockToText(clock: TimeSpec)
    requires clock.Valid() && IsInt64(clock.Milliseconds())
    ensures FixedUp(clock.Milliseconds() as int64) == (clock.seconds as int, clock.nanoseconds as int / 1_000_000)
    ensures FIRST_MILLISECOND <= clock.Milliseconds() <= LAST_MILLISECOND ==>
              && TimestampText(clock.Milliseconds())
                 == SecondText(clock.seconds as int, clock.nanoseconds as int / 1_000_000)
              && TimestampText(clock.Milliseconds()).Some?
              && ParseTimestamp(TimestampText(clock.Milliseconds()).value) == Some(clock.Milliseconds())
  {
    var total, part := clock.Milliseconds(), clock.nanoseconds as int / 1_000_000;
    SplitMilliseconds(clock.seconds as int, part);
    FloorBySteps(total as int64);
    if FIRST_MILLISECOND <= total <= LAST_MILLISECOND {
      TimestampRoundTrip(total);
    }
  }

  lemma SplitMilliseconds(seconds: int, part: int)
    requires 0 <= part < 1000
    ensures (seconds * 1000 + part) / 1000 == seconds && (seconds * 1000 + part) % 1000 == part
  {
  }
}
