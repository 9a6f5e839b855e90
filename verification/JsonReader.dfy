/** A reader for JSON texts, after RFC 8259. */
module JsonReader {
  import opened Decimal
  import opened Text
  import opened Wrappers

  /** A JSON value; a number is kept as it is written. */
  datatype Json =
    | Literal(word: string)
    | Number(digits: string)
    | String(text: string)
    | Array(items: seq<Json>)
    | Object(members: seq<(string, Json)>)

  // ---- strings (section 7) ----

  predicate IsHex(c: char) {
    '0' <= c <= '9' || 'a' <= c <= 'f' || 'A' <= c <= 'F'
  }

  function HexValue(c: char): nat
    requires IsHex(c)
  {
    if c <= '9' then c as int - '0' as int
    else if c <= 'F' then c as int - 'A' as int + 10
    else c as int - 'a' as int + 10
  }

  /** The character of a four-digit escape; surrogates are not characters. */
  function FourHex(s: string): Option<char> {
    if |s| < 4 || !IsHex(s[0]) || !IsHex(s[1]) || !IsHex(s[2]) || !IsHex(s[3]) then None
    else
      var code := 4096 * HexValue(s[0]) + 256 * HexValue(s[1]) + 16 * HexValue(s[2]) + HexValue(s[3]);
      if code < 0xD800 || 0xE000 <= code <= 0xFFFF then Some(code as char) else None
  }

  function SimpleEscape(c: char): Option<char> {
    if c == '"' || c == '\\' || c == '/' then Some(c)
    else if c == 'b' then Some(8 as char)
    else if c == 'f' then Some(12 as char)
    else if c == 'n' then Some('\n')
    else if c == 'r' then Some('\r')
    else if c == 't' then Some('\t')
    else None
  }

  /** The inside of a JSON string and what follows its closing quote (section 7 of RFC 8259). */
  function ReadChars(s: string): (r: Option<(string, string)>)
    ensures r.Some? ==> |r.value.1| < |s|
  {
    if s == "" then None
    else if s[0] == '"' then Some(("", s[1..]))
    else if s[0] == '\\' then
      if |s| == 1 then None
      else if s[1] == 'u' then
        var c :- FourHex(s[2..]);
        var (more, rest) :- ReadChars(s[6..]);
        Some(([c] + more, rest))
      else
        var c :- SimpleEscape(s[1]);
        var (more, rest) :- ReadChars(s[2..]);
        Some(([c] + more, rest))
    else if s[0] < ' ' then None
    else
      var (more, rest) :- ReadChars(s[1..]);
      Some(([s[0]] + more, rest))
  }

  function ReadString(s: string): (r: Option<(string, string)>)
    ensures r.Some? ==> |r.value.1| < |s|
  {
    var s1 :- Strip("\"", s);
    ReadChars(s1)
  }

  // ---- numbers (section 6) ----

  function CountDigits(s: string): (n: nat)
    ensures n <= |s|
  {
    if s != "" && IsDigit(s[0]) then 1 + CountDigits(s[1..]) else 0
  }

  /** The length of the integer part: no leading zeros. */
  function IntegerLength(s: string): (n: nat)
    ensures n <= |s|
  {
    if s != "" && s[0] == '0' then 1 else CountDigits(s)
  }

  /** The length of the fraction, if there is one; nothing when it has no digits. */
  function FractionLength(s: string): (r: Option<nat>)
    ensures r.Some? ==> r.value <= |s|
  {
    if !("." <= s) then Some(0)
    else if CountDigits(s[1..]) == 0 then None
    else Some(1 + CountDigits(s[1..]))
  }

  function ExponentLength(s: string): (r: Option<nat>)
    ensures r.Some? ==> r.value <= |s|
  {
    if s == "" || (s[0] != 'e' && s[0] != 'E') then Some(0)
    else
      var sign := if |s| > 1 && (s[1] == '+' || s[1] == '-') then 2 else 1;
      if CountDigits(s[sign..]) == 0 then None else Some(sign + CountDigits(s[sign..]))
  }

  function NumberLength(s: string): (r: Option<nat>)
    ensures r.Some? ==> 0 < r.value <= |s|
  {
    var minus := if "-" <= s then 1 else 0;
    var n := IntegerLength(s[minus..]);
    if n == 0 then None
    else
      var f :- FractionLength(s[minus + n..]);
      var e :- ExponentLength(s[minus + n + f..]);
      Some(minus + n + f + e)
  }

  // ---- values (sections 2 to 5) ----

  predicate IsSpace(c: char) {
    c == ' ' || c == '\t' || c == '\n' || c == '\r'
  }

  function SkipSpace(s: string): (r: string)
    ensures |r| <= |s|
  {
    if s != "" && IsSpace(s[0]) then SkipSpace(s[1..]) else s
  }

  lemma NoSpace(s: string)
    ensures s != "" && !IsSpace(s[0]) ==> SkipSpace(s) == s
  {
  }

  function ReadNumber(s: string): (r: Option<(Json, string)>)
    ensures r.Some? ==> |r.value.1| < |s|
  {
    var n :- NumberLength(s);
    Some((Number(s[..n]), s[n..]))
  }

  function ReadLiteral(s: string): (r: Option<(Json, string)>)
    ensures r.Some? ==> |r.value.1| < |s|
  {
    if "true" <= s then Some((Literal("true"), s[4..]))
    else if "false" <= s then Some((Literal("false"), s[5..]))
    else if "null" <= s then Some((Literal("null"), s[4..]))
    else None
  }

  /** A value and what follows it. */
  function ReadValue(text: string): (r: Option<(Json, string)>)
    ensures r.Some? ==> |r.value.1| < |text|
    decreases |text|, 0
  {
    var s := SkipSpace(text);
    if s == "" then None
    else if s[0] == '"' then
      var (value, rest) :- ReadChars(s[1..]);
      Some((String(value), rest))
    else if s[0] == '[' then
      var (items, rest) :- ReadItems(s[1..], true);
      Some((Array(items), rest))
    else if s[0] == '{' then
      var (members, rest) :- ReadMembers(s[1..], true);
      Some((Object(members), rest))
    else if s[0] == '-' || IsDigit(s[0]) then ReadNumber(s)
    else ReadLiteral(s)
  }

  /** The rest of an array. */
  function ReadItems(text: string, first: bool): (r: Option<(seq<Json>, string)>)
    ensures r.Some? ==> |r.value.1| < |text|
    decreases |text|, 1
  {
    var s := SkipSpace(text);
    if "]" <= s then Some(([], s[1..]))
    else
      var s1 :- if first then Some(s) else Strip(",", s);
      var (item, s2) :- ReadValue(s1);
      var (more, rest) :- ReadItems(s2, false);
      Some(([item] + more, rest))
  }

  /** The rest of an object. */
  function ReadMembers(text: string, first: bool): (r: Option<(seq<(string, Json)>, string)>)
    ensures r.Some? ==> |r.value.1| < |text|
    decreases |text|, 1
  {
    var s := SkipSpace(text);
    if "}" <= s then Some(([], s[1..]))
    else
      var s1 :- if first then Some(s) else Strip(",", s);
      var (key, s2) :- ReadString(SkipSpace(s1));
      var s3 :- Strip(":", SkipSpace(s2));
      var (value, s4) :- ReadValue(s3);
      var (more, rest) :- ReadMembers(s4, false);
      Some(([(key, value)] + more, rest))
  }

  /** A whole text: one value, with space around it. */
  function ReadDocument(text: string): Option<Json> {
    var (value, rest) :- ReadValue(text);
    if SkipSpace(rest) == "" then Some(value) else None
  }

  // ---- how texts that begin in one way read ----

  lemma StringReads(text: string, value: string, rest: string)
    requires ReadChars(text) == Some((value, rest))
    ensures ReadValue("\"" + text) == Some((String(value), rest))
  {
    NoSpace("\"" + text);
    assert ("\"" + text)[1..] == text;
  }

  lemma NumberReads(s: string, n: nat)
    requires s != "" && IsDigit(s[0]) && NumberLength(s) == Some(n)
    ensures n <= |s| && ReadValue(s) == Some((Number(s[..n]), s[n..]))
  {
    DigitMeansNumber(s);
  }

  lemma DigitMeansNumber(s: string)
    requires s != "" && IsDigit(s[0])
    ensures ReadValue(s) == ReadNumber(s)
  {
    NoSpace(s);
  }

  lemma ArrayReads(text: string, items: seq<Json>, rest: string)
    requires ReadItems(text, true) == Some((items, rest))
    ensures ReadValue("[" + text) == Some((Array(items), rest))
  {
    NoSpace("[" + text);
    assert ("[" + text)[1..] == text;
  }

  lemma ObjectOpens(text: string, members: seq<(string, Json)>, rest: string)
    requires ReadMembers(text, true) == Some((members, rest))
    ensures ReadValue("{" + text) == Some((Object(members), rest))
  {
    NoSpace("{" + text);
    assert ("{" + text)[1..] == text;
  }

  lemma {:induction false} DigitsCounted(digits: string, rest: string)
    requires AllDigits(digits) && (rest == "" || !IsDigit(rest[0]))
    ensures CountDigits(digits + rest) == |digits|
  {
    if digits == "" {
      assert digits + rest == rest;
    } else {
      assert (digits + rest)[1..] == digits[1..] + rest;
      DigitsCounted(digits[1..], rest);
    }
  }

  /** A positive decimal integer before a comma is a number. */
  lemma PlainNumber(digits: string, rest: string)
    requires IsCount(digits) && rest != "" && rest[0] == ','
    ensures NumberLength(digits + rest) == Some(|digits|)
  {
    var s := digits + rest;
    DigitsCounted(digits, rest);
    assert s[0] == digits[0];
    assert s[0..] == s;
    assert s[|digits|..] == rest;
  }
}
