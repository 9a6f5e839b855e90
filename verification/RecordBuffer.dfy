/** The bounded buffer a console record is assembled in. */
module RecordBuffers {
  const RECORD_CAPACITY := 16384

  /** The effect of appending `text`, all or part of it: everything when it fits; otherwise the
      append fails and the buffer holds the old text and no more than a prefix of the new. */
  ghost predicate Appended(before: string, text: string, after: string, ok: bool) {
    && (ok <==> |before| + |text| <= RECORD_CAPACITY)
    && (ok ==> after == before + text)
    && before <= after <= before + text
  }

  class RecordBuffer {
    const buffer: array<char>
    var size: nat

    ghost predicate Valid()
      reads this, buffer
    {
      buffer.Length == RECORD_CAPACITY && size <= RECORD_CAPACITY
    }

    constructor ()
      ensures Valid() && fresh(buffer) && View() == ""
    {
      buffer := new char[RECORD_CAPACITY];
      size := 0;
    }

    /** The accumulated characters. */
    function View(): (s: string)
      requires Valid()
      reads this, buffer
      ensures |s| == size
    {
      buffer[..size]
    }

    /** Appends the whole value, or nothing. */
    method Append(value: string) returns (ok: bool)
      requires Valid()
      modifies `size, buffer
      ensures Valid()
      ensures Appended(old(View()), value, View(), ok)
      ensures !ok ==> View() == old(View())
    {
      if |value| > buffer.Length - size {
        return false;
      }
      if value != "" {
        forall i | 0 <= i < |value| {
          buffer[size + i] := value[i];
        }
        size := size + |value|;
      }
      return true;
    }
  }
}
