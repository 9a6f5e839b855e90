/** Settings written as CMake bracket arguments, `set(name [==[value]==])`, and how CMake's
    language reads them back. */
module BracketQuoting {
  import opened Text
  import opened Wrappers

  /** The closing bracket with `n` equals signs. */
  function Closing(n: nat): string {
    "]" + Repeat('=', n) + "]"
  }

  function Opening(n: nat): string {
    "[" + Repeat('=', n) + "["
  }

  /** `string(FIND ...)`: the first position of `mark`, or -1. */
  function Find(s: string, mark: string): (r: int)
    ensures -1 <= r <= |s|
    ensures r == -1 <==> !Contains(s, mark)
    ensures r >= 0 ==> OccursAt(s, mark, r) && forall j :: 0 <= j < r ==> !OccursAt(s, mark, j)
  {
    FindFrom(s, mark, 0)
  }

  function FindFrom(s: string, mark: string, from: nat): (r: int)
    requires from <= |s|
    ensures r == -1 || from <= r <= |s|
    ensures r == -1 ==> forall j :: from <= j <= |s| ==> !OccursAt(s, mark, j)
    ensures r >= 0 ==> OccursAt(s, mark, r) && forall j :: from <= j < r ==> !OccursAt(s, mark, j)
    decreases |s| - from
  {
    if OccursAt(s, mark, from) then from else if from == |s| then -1 else FindFrom(s, mark, from + 1)
  }

  /** The line for a setting, with a delimiter of `n` equals signs. */
  function SettingText(name: string, value: string, n: nat): string {
    "set(" + name + " " + Opening(n) + value + Closing(n) + ")\n"
  }

  /** The shortest delimiter, of at least one equals sign, whose closing bracket is not in the value. */
  ghost predicate ShortestDelimiter(value: string, n: nat) {
    n >= 1 && !Contains(value, Closing(n)) && forall m :: 1 <= m < n ==> Contains(value, Closing(m))
  }

  method WriteSetting(manifest: string, name: string, value: string) returns (written: string)
    ensures exists n: nat :: ShortestDelimiter(value, n) && written == manifest + SettingText(name, value, n)
  {
    var delimiter := "=";
    ghost var n: nat := 1;
    var closing := Find(value, "]" + delimiter + "]");
    while closing != -1
      invariant n >= 1 && delimiter == Repeat('=', n)
      invariant closing == Find(value, Closing(n))
      invariant forall m :: 1 <= m < n ==> Contains(value, Closing(m))
      decreases |value| - n
    {
      delimiter := delimiter + "=";
      n := n + 1;
      closing := Find(value, "]" + delimiter + "]");
    }
    written := manifest + ("set(" + name + " [" + delimiter + "[" + value + "]" + delimiter + "])\n");
    SameLine(name, value, n);
    assert ShortestDelimiter(value, n);
  }

  lemma SameLine(name: string, value: string, n: nat)
    ensures "set(" + name + " [" + Repeat('=', n) + "[" + value + "]" + Repeat('=', n) + "])\n"
         == SettingText(name, value, n)
  {
    assert " [" == " " + "[" && "])\n" == "]" + ")\n";
  }

  // ---- reading ----

  /** The number of equals signs at the start. */
  function CountEquals(s: string): (n: nat)
    ensures n <= |s|
  {
    if s != "" && s[0] == '=' then 1 + CountEquals(s[1..]) else 0
  }

  /** CMake's bracket argument (section "Bracket Argument" of the cmake-language manual): an opening
      bracket, then everything up to the first closing bracket of the same length; a newline
      directly after the opening bracket is dropped. */
  function ReadBracket(s: string): Option<(string, string)> {
    var s1 :- Strip("[", s);
    var n := CountEquals(s1);
    var body :- Strip("[", s1[n..]);
    ReadBody(body, n)
  }

  /** What follows an opening bracket of `n` equals signs. */
  function ReadBody(body: string, n: nat): Option<(string, string)> {
    var text := if body != "" && body[0] == '\n' then body[1..] else body;
    var end := Find(text, Closing(n));
    if end < 0 then None else Some((text[..end], text[end + n + 2..]))
  }

  /** Reads a `set(name [==[...]==])` line back. */
  function ReadSetting(name: string, s: string): Option<(string, string)> {
    var argument :- Strip("set(" + name + " ", s);
    var (value, rest) :- ReadBracket(argument);
    var after :- Strip(")\n", rest);
    Some((value, after))
  }

  /** The value ends in the closing bracket but for its last character. */
  predicate EndsOpen(value: string, n: nat) {
    |value| >= n + 1 && value[|value| - n - 1..] == "]" + Repeat('=', n)
  }

  /** When a quoted value survives: it does not start with a newline, and it does not end in what
      would be the closing bracket but for its last character. */
  predicate Survives(value: string, n: nat) {
    !(value != "" && value[0] == '\n') && !EndsOpen(value, n)
  }

  lemma {:induction false} CountsEquals(n: nat, rest: string)
    requires rest == "" || rest[0] != '='
    ensures CountEquals(Repeat('=', n) + rest) == n
  {
    if n > 0 {
      assert (Repeat('=', n) + rest)[1..] == Repeat('=', n - 1) + rest;
      CountsEquals(n - 1, rest);
    } else {
      assert Repeat('=', n) + rest == rest;
    }
  }

  /** An occurrence that begins in the value lies in it, or the value ends in all but its last character. */
  lemma EarlierOccurrence(value: string, n: nat, rest: string, j: nat)
    requires n >= 1 && j < |value| && OccursAt(value + Closing(n) + rest, Closing(n), j)
    ensures OccursAt(value, Closing(n), j) || EndsOpen(value, n)
  {
    var text, mark := value + Closing(n) + rest, Closing(n);
    assert forall k :: 0 <= k < |mark| ==> text[j + k] == text[j..][k] == mark[k];
    if j + |mark| <= |value| {
      assert forall k :: 0 <= k < |mark| ==> value[j..][k] == mark[k];
    } else {
      assert mark[|value| - j] == text[|value|] == ']';
      assert |value| - j == n + 1;
      assert forall k :: 0 <= k < n + 1 ==> value[j..][k] == text[j + k] == mark[k];
    }
  }

  /** The first occurrence of a closing bracket after a value that survives is the one written. */
  lemma ClosingAfterValue(value: string, n: nat, rest: string)
    requires n >= 1 && !Contains(value, Closing(n)) && !EndsOpen(value, n)
    ensures Find(value + Closing(n) + rest, Closing(n)) == |value|
  {
    var text, mark := value + Closing(n) + rest, Closing(n);
    assert OccursAt(text, mark, |value|) by {
      assert text[|value|..] == mark + rest;
    }
    forall j | 0 <= j < |value| ensures !OccursAt(text, mark, j) {
      if OccursAt(text, mark, j) {
        EarlierOccurrence(value, n, rest, j);
      }
    }
  }

  lemma OpeningReads(n: nat, rest: string)
    ensures Strip("[", Opening(n) + rest).Some?
    ensures CountEquals(Strip("[", Opening(n) + rest).value) == n
    ensures Strip("[", Strip("[", Opening(n) + rest).value[n..]) == Some(rest)
  {
    assert Opening(n) + rest == "[" + (Repeat('=', n) + ("[" + rest));
    StripConcat("[", Repeat('=', n) + ("[" + rest));
    CountsEquals(n, "[" + rest);
    assert (Repeat('=', n) + ("[" + rest))[n..] == "[" + rest;
    StripConcat("[", rest);
  }

  lemma ReadsExactly(value: string, n: nat, rest: string)
    requires n >= 1 && !Contains(value, Closing(n)) && Survives(value, n)
    ensures ReadBracket(Opening(n) + (value + Closing(n) + rest)) == Some((value, rest))
  {
    var text := value + Closing(n) + rest;
    OpeningReads(n, text);
    assert !(text != "" && text[0] == '\n') by {
      if value == "" {
        assert text[0] == Closing(n)[0];
      }
    }
    ClosingAfterValue(value, n, rest);
    assert text[..|value|] == value && text[|value| + n + 2..] == rest;
  }

  lemma EndsEarly(value: string, n: nat, rest: string)
    requires EndsOpen(value, n)
    ensures OccursAt(value + Closing(n) + rest, Closing(n), |value| - n - 1)
  {
    var body, j := value + Closing(n) + rest, |value| - n - 1;
    assert value[j..] + "]" == Closing(n);
    assert body[j..] == value[j..] + (Closing(n) + rest);
    assert body[j..][..n + 2] == value[j..] + "]";
  }

  lemma ReadsOtherwise(value: string, n: nat, rest: string)
    requires n >= 1 && !Survives(value, n)
    ensures var r := ReadBracket(Opening(n) + (value + Closing(n) + rest)); r.None? || |r.value.0| < |value|
  {
    var body := value + Closing(n) + rest;
    OpeningReads(n, body);
    if value != "" && value[0] == '\n' {
      var text := body[1..];
      assert text[|value| - 1..] == Closing(n) + rest;
      assert OccursAt(text, Closing(n), |value| - 1);
    } else {
      EndsEarly(value, n, rest);
      assert body[0] == value[0];
    }
  }

  /** A value read back by CMake's bracket rule alone is the value written, for every value that
      survives, and only for those. */
  lemma BracketRoundTrip(name: string, value: string, n: nat, rest: string)
    requires ShortestDelimiter(value, n)
    ensures ReadSetting(name, SettingText(name, value, n) + rest) == Some((value, rest)) <==> Survives(value, n)
  {
    var argument := Opening(n) + (value + Closing(n) + (")\n" + rest));
    assert SettingText(name, value, n) + rest == ("set(" + name + " ") + argument;
    StripConcat("set(" + name + " ", argument);
    if Survives(value, n) {
      ReadsExactly(value, n, ")\n" + rest);
      StripConcat(")\n", rest);
    } else {
      ReadsOtherwise(value, n, ")\n" + rest);
    }
  }

  // ---- reading the file ----

  const CRLF := "\r\n"

  /** CMake turns each carriage return with a newline into a newline as it reads a file. */
  function Converted(s: string): (t: string)
    ensures |t| <= |s|
  {
    if s == "" then ""
    else if CRLF <= s then "\n" + Converted(s[2..])
    else [s[0]] + Converted(s[1..])
  }

  /** Reads a file that begins with a setting. */
  function ReadFile(name: string, file: string): Option<(string, string)> {
    ReadSetting(name, Converted(file))
  }

  lemma ContainsCons(s: string)
    requires s != ""
    ensures Contains(s, CRLF) <==> CRLF <= s || Contains(s[1..], CRLF)
  {
    if CRLF <= s {
      assert s[0..] == s;
      assert OccursAt(s, CRLF, 0);
    }
    if Contains(s[1..], CRLF) {
      var j :| 0 <= j <= |s[1..]| && OccursAt(s[1..], CRLF, j);
      assert s[1..][j..] == s[j + 1..];
      assert OccursAt(s, CRLF, j + 1);
    }
    if Contains(s, CRLF) {
      var j :| 0 <= j <= |s| && OccursAt(s, CRLF, j);
      if j > 0 {
        assert s[1..][j - 1..] == s[j..];
        assert OccursAt(s[1..], CRLF, j - 1);
      } else {
        assert s[0..] == s;
      }
    }
  }

  lemma StartsWithCrlf(s: string)
    ensures CRLF <= s <==> |s| >= 2 && s[0] == '\r' && s[1] == '\n'
  {
  }

  /** Conversion goes piece by piece, unless a line end is cut in two. */
  lemma {:induction false} ConvertedAppend(left: string, right: string)
    requires left != "" && left[|left| - 1] == '\r' ==> right == "" || right[0] != '\n'
    ensures Converted(left + right) == Converted(left) + Converted(right)
  {
    if left == "" {
      assert left + right == right;
      return;
    }
    StartsWithCrlf(left);
    StartsWithCrlf(left + right);
    if CRLF <= left {
      assert (left + right)[2..] == left[2..] + right;
      ConvertedAppend(left[2..], right);
    } else {
      assert (left + right)[1..] == left[1..] + right;
      ConvertedAppend(left[1..], right);
    }
  }

  /** Conversion leaves a text as it is when it has no line end to convert, and otherwise shortens it. */
  lemma {:induction false} ConvertedExactly(s: string)
    ensures !Contains(s, CRLF) ==> Converted(s) == s
    ensures Contains(s, CRLF) ==> |Converted(s)| < |s|
  {
    if s == "" {
      assert !Contains(s, CRLF);
    } else {
      ContainsCons(s);
      if !(CRLF <= s) {
        ConvertedExactly(s[1..]);
      }
    }
  }

  lemma NoReturnsNoChange(s: string)
    requires '\r' !in s
    ensures Converted(s) == s
  {
    if Contains(s, CRLF) {
      var j :| 0 <= j <= |s| && OccursAt(s, CRLF, j);
      OccurrenceShape(s, CRLF, j);
    }
    ConvertedExactly(s);
  }

  /** Only the value and what follows the setting are converted. */
  lemma OnlyValueConverted(front: string, value: string, back: string, rest: string)
    requires '\r' !in front && '\r' !in back && back != "" && back[0] != '\n'
    ensures Converted(front + (value + (back + rest))) == front + (Converted(value) + (back + Converted(rest)))
  {
    ConvertedAppend(front, value + (back + rest));
    ConvertedAppend(value, back + rest);
    ConvertedAppend(back, rest);
    NoReturnsNoChange(front);
    NoReturnsNoChange(back);
  }

  /** The text of a setting, nested the way it is read. */
  lemma SettingPieces(name: string, value: string, n: nat, rest: string)
    ensures SettingText(name, value, n) + rest
         == "set(" + name + " " + Opening(n) + (value + (Closing(n) + ")\n" + rest))
  {
    var front := "set(" + name + " " + Opening(n);
    Associate(front + value, Closing(n), ")\n");
    Associate(front + value, Closing(n) + ")\n", rest);
    Associate(front, value, Closing(n) + ")\n" + rest);
  }

  lemma ConvertedSetting(name: string, value: string, n: nat, rest: string)
    requires '\r' !in name
    ensures Converted(SettingText(name, value, n) + rest) == SettingText(name, Converted(value), n) + Converted(rest)
  {
    SettingPieces(name, value, n, rest);
    SettingPieces(name, Converted(value), n, Converted(rest));
    assert Closing(n)[0] == ']';
    OnlyValueConverted("set(" + name + " " + Opening(n), value, Closing(n) + ")\n", rest);
  }

  lemma FoundBy(s: string, mark: string, at: nat)
    requires OccursAt(s, mark, at)
    ensures 0 <= Find(s, mark) <= at
  {
  }

  lemma ClosingFoundBy(value: string, n: nat, rest: string)
    ensures 0 <= Find(value + Closing(n) + rest, Closing(n)) <= |value|
  {
    var text := value + Closing(n) + rest;
    assert text[|value|..] == Closing(n) + rest;
    FoundBy(text, Closing(n), |value|);
  }

  lemma BracketIsBody(n: nat, body: string)
    ensures ReadBracket(Opening(n) + body) == ReadBody(body, n)
  {
    OpeningReads(n, body);
  }

  /** Whatever value is written, none longer is read. */
  lemma ReadsNoMore(value: string, n: nat, rest: string)
    ensures var r := ReadBody(value + Closing(n) + rest, n); r.Some? ==> |r.value.0| <= |value|
  {
    var body := value + Closing(n) + rest;
    assert body[0] == if value == "" then ']' else value[0];
    if body[0] == '\n' {
      assert body[1..] == value[1..] + Closing(n) + rest;
      ClosingFoundBy(value[1..], n, rest);
    } else {
      ClosingFoundBy(value, n, rest);
    }
  }

  lemma SettingReadsNoMore(name: string, value: string, n: nat, rest: string)
    ensures var r := ReadSetting(name, SettingText(name, value, n) + rest); r.Some? ==> |r.value.0| <= |value|
  {
    var argument := Opening(n) + (value + Closing(n) + (")\n" + rest));
    assert SettingText(name, value, n) + rest == ("set(" + name + " ") + argument;
    StripConcat("set(" + name + " ", argument);
    BracketIsBody(n, value + Closing(n) + (")\n" + rest));
    ReadsNoMore(value, n, ")\n" + rest);
  }

  /** A setting read back from the file is the value written if and only if the value survives the
      bracket rule and has no line end that reading the file converts. */
  lemma SettingRoundTrip(name: string, value: string, n: nat, rest: string)
    requires '\r' !in name && ShortestDelimiter(value, n)
    ensures ReadFile(name, SettingText(name, value, n) + rest) == Some((value, Converted(rest)))
       <==> Survives(value, n) && !Contains(value, CRLF)
  {
    ConvertedSetting(name, value, n, rest);
    ConvertedExactly(value);
    if Contains(value, CRLF) {
      SettingReadsNoMore(name, Converted(value), n, Converted(rest));
    } else {
      BracketRoundTrip(name, value, n, Converted(rest));
    }
  }

  /** A value that reading the file changes, as an input: it has a carriage return and a newline. */
  lemma LostLineEnd()
    ensures ShortestDelimiter("a\r\nb", 1) && Survives("a\r\nb", 1) && Contains("a\r\nb", CRLF)
  {
    var value := "a\r\nb";
    assert Closing(1)[0] == ']';
    assert !Contains(value, Closing(1)) by {
      forall j | 0 <= j <= |value| ensures !OccursAt(value, Closing(1), j) {
        if OccursAt(value, Closing(1), j) {
          OccurrenceShape(value, Closing(1), j);
        }
      }
    }
    assert OccursAt(value, CRLF, 1);
    assert value[|value| - 2..][0] == '\n';
  }

  lemma OccurrenceShape(s: string, mark: string, j: nat)
    requires OccursAt(s, mark, j) && mark != ""
    ensures j + |mark| <= |s| && s[j] == mark[0]
  {
    assert s[j..][0] == mark[0];
  }

  /** A value that does not survive, as an input: it ends in a bracket and one equals sign. */
  lemma LostValue()
    ensures ShortestDelimiter("a]=", 1) && !Survives("a]=", 1)
  {
    var value := "a]=";
    assert Repeat('=', 1) == "=";
    assert Closing(1) == "]=]";
    assert !Contains(value, Closing(1)) by {
      forall j | 0 <= j <= |value| ensures !OccursAt(value, Closing(1), j) {
        if OccursAt(value, Closing(1), j) {
          OccurrenceShape(value, Closing(1), j);
        }
      }
    }
    assert value[|value| - 2..] == "]=";
  }
}
