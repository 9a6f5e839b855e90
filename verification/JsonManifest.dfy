/** The coverage manifest: JSON written by successive text replacements and separator-driven
    loops, and what a reader of JSON makes of it. */
module JsonManifest {
  import opened Decimal
  import opened JsonReader
  import opened Text
  import opened Wrappers

  // ---- strings ----

  /** `string(REPLACE c by ...)` with a pattern of one character. */
  function ReplaceAll(s: string, c: char, with: string): string {
    if s == "" then "" else (if s[0] == c then with else [s[0]]) + ReplaceAll(s[1..], c, with)
  }

  /** What one character of a string becomes. */
  function JsonChar(c: char): string {
    if c == '\\' then "\\\\"
    else if c == '"' then "\\\""
    else if c == '\n' then "\\n"
    else if c == '\r' then "\\r"
    else if c == '\t' then "\\t"
    else [c]
  }

  function JsonText(s: string): string {
    if s == "" then "" else JsonChar(s[0]) + JsonText(s[1..])
  }

  function Quoted(s: string): string {
    "\"" + JsonText(s) + "\""
  }

  function FivePasses(s: string): string {
    ReplaceAll(ReplaceAll(ReplaceAll(ReplaceAll(ReplaceAll(s, '\\', "\\\\"), '"', "\\\""), '\n', "\\n"), '\r', "\\r"),
               '\t', "\\t")
  }

  /** Five passes over the whole value, each on the last one's result. */
  method JsonString(value: string) returns (quoted: string)
    ensures quoted == Quoted(value)
  {
    var text := ReplaceAll(value, '\\', "\\\\");
    text := ReplaceAll(text, '"', "\\\"");
    text := ReplaceAll(text, '\n', "\\n");
    text := ReplaceAll(text, '\r', "\\r");
    text := ReplaceAll(text, '\t', "\\t");
    FivePassesAreOne(value);
    quoted := "\"" + text + "\"";
  }

  lemma {:induction false} ReplaceAppend(left: string, right: string, c: char, with: string)
    ensures ReplaceAll(left + right, c, with) == ReplaceAll(left, c, with) + ReplaceAll(right, c, with)
  {
    if left == "" {
      assert left + right == right;
    } else {
      assert (left + right)[1..] == left[1..] + right;
      ReplaceAppend(left[1..], right, c, with);
    }
  }

  lemma FiveAppend(left: string, right: string)
    ensures FivePasses(left + right) == FivePasses(left) + FivePasses(right)
  {
    var l1, r1 := ReplaceAll(left, '\\', "\\\\"), ReplaceAll(right, '\\', "\\\\");
    ReplaceAppend(left, right, '\\', "\\\\");
    var l2, r2 := ReplaceAll(l1, '"', "\\\""), ReplaceAll(r1, '"', "\\\"");
    ReplaceAppend(l1, r1, '"', "\\\"");
    var l3, r3 := ReplaceAll(l2, '\n', "\\n"), ReplaceAll(r2, '\n', "\\n");
    ReplaceAppend(l2, r2, '\n', "\\n");
    ReplaceAppend(l3, r3, '\r', "\\r");
    ReplaceAppend(ReplaceAll(l3, '\r', "\\r"), ReplaceAll(r3, '\r', "\\r"), '\t', "\\t");
  }

  lemma ReplaceOne(x: char, c: char, with: string)
    ensures ReplaceAll([x], c, with) == if x == c then with else [x]
  {
    assert [x][1..] == "";
    assert with + "" == with && [x] + "" == [x];
  }

  lemma ReplaceTwo(x: char, y: char, c: char, with: string)
    requires x != c && y != c
    ensures ReplaceAll([x, y], c, with) == [x, y]
  {
    assert [x, y] == [x] + [y];
    ReplaceAppend([x], [y], c, with);
    ReplaceOne(x, c, with);
    ReplaceOne(y, c, with);
  }

  lemma FiveOne(x: char)
    ensures FivePasses([x]) == JsonChar(x)
  {
    ReplaceOne(x, '\\', "\\\\");
    if x == '\\' {
      ReplaceTwo('\\', '\\', '"', "\\\"");
      ReplaceTwo('\\', '\\', '\n', "\\n");
      ReplaceTwo('\\', '\\', '\r', "\\r");
      ReplaceTwo('\\', '\\', '\t', "\\t");
    } else {
      ReplaceOne(x, '"', "\\\"");
      if x == '"' {
        ReplaceTwo('\\', '"', '\n', "\\n");
        ReplaceTwo('\\', '"', '\r', "\\r");
        ReplaceTwo('\\', '"', '\t', "\\t");
      } else {
        ReplaceOne(x, '\n', "\\n");
        ReplaceOne(x, '\r', "\\r");
        ReplaceOne(x, '\t', "\\t");
        ReplaceTwo('\\', 'n', '\r', "\\r");
        ReplaceTwo('\\', 'n', '\t', "\\t");
        ReplaceTwo('\\', 'r', '\t', "\\t");
      }
    }
  }

  /** The five passes are one pass, character by character: no pass disturbs another's escapes. */
  lemma {:induction false} FivePassesAreOne(s: string)
    ensures FivePasses(s) == JsonText(s)
  {
    if s != "" {
      assert s == [s[0]] + s[1..];
      FiveAppend([s[0]], s[1..]);
      FiveOne(s[0]);
      FivePassesAreOne(s[1..]);
    }
  }

  /** No control character but newline, carriage return and tab. */
  predicate Clean(s: string) {
    forall i :: 0 <= i < |s| ==> s[i] >= ' ' || s[i] == '\n' || s[i] == '\r' || s[i] == '\t'
  }

  lemma CleanCons(s: string)
    requires s != ""
    ensures Clean(s) <==> Clean(s[..1]) && Clean(s[1..])
  {
    if Clean(s[..1]) && Clean(s[1..]) {
      forall i | 0 <= i < |s| ensures s[i] >= ' ' || s[i] == '\n' || s[i] == '\r' || s[i] == '\t' {
        assert i > 0 ==> s[i] == s[1..][i - 1];
        assert s[0] == s[..1][0];
      }
    }
  }

  /** One printed character reads back, unless it is a control character left as it is. */
  lemma CharReads(c: char, tail: string)
    ensures ReadChars(JsonChar(c) + tail)
         == if !Clean([c]) || ReadChars(tail).None? then None
            else Some(([c] + ReadChars(tail).value.0, ReadChars(tail).value.1))
  {
    var head := JsonChar(c);
    var text := head + tail;
    assert text[|head|..] == tail;
    assert text[0] == head[0];
    assert Clean([c]) <==> c >= ' ' || c == '\n' || c == '\r' || c == '\t' by {
      assert [c][0] == c;
    }
    if |head| == 2 {
      assert text[1] == head[1];
      EscapeReads(text, c, tail);
    }
  }

  lemma EscapeReads(text: string, c: char, tail: string)
    requires |text| >= 2 && text[0] == '\\' && text[1] != 'u' && SimpleEscape(text[1]) == Some(c) && text[2..] == tail
    ensures ReadChars(text)
         == if ReadChars(tail).None? then None
            else Some(([c] + ReadChars(tail).value.0, ReadChars(tail).value.1))
  {
  }

  /** A quoted string reads back as itself when it is clean, and is not JSON when it is not. */
  lemma {:induction false} StringRoundTrip(s: string, rest: string)
    ensures ReadChars(JsonText(s) + "\"" + rest) == if Clean(s) then Some((s, rest)) else None
  {
    if s == "" {
      assert JsonText(s) + "\"" + rest == "\"" + rest;
      assert ("\"" + rest)[1..] == rest;
    } else {
      var head, tail := JsonChar(s[0]), JsonText(s[1..]) + "\"" + rest;
      assert [s[0]] + s[1..] == s;
      Associate(head, JsonText(s[1..]), "\"");
      Associate(head, JsonText(s[1..]) + "\"", rest);
      StringRoundTrip(s[1..], rest);
      CleanCons(s);
      CharReads(s[0], tail);
    }
  }

  /** A string that JSON loses, as an input: a control character that no replacement covers. */
  lemma UnescapedControl()
    ensures !Clean([1 as char]) && ReadChars(JsonText([1 as char]) + "\"") == None
  {
    var s := [1 as char];
    assert s[0] < ' ';
    StringRoundTrip(s, "");
    assert JsonText(s) + "\"" + "" == JsonText(s) + "\"";
  }

  lemma QuotedReads(s: string, rest: string)
    ensures ReadString(Quoted(s) + rest) == if Clean(s) then Some((s, rest)) else None
  {
    assert Quoted(s) + rest == "\"" + (JsonText(s) + "\"" + rest);
    StripConcat("\"", JsonText(s) + "\"" + rest);
    StringRoundTrip(s, rest);
  }

  // ---- the document ----

  /** A registered proof as the manifest records it. The timeout is its decimal digits. */
  datatype Proof = Proof(name: string, timeout: string, directory: string, command: seq<string>)

  datatype Manifest = Manifest(root: string, executable: string, exceptions: string, proofs: seq<Proof>)

  /** What registration has checked, and text the reader can represent: names and the exception
      mode are printed without escaping. */
  predicate ValidProof(p: Proof) {
    && Plain(p.name)
    && IsCount(p.timeout)
    && Clean(p.directory)
    && forall i :: 0 <= i < |p.command| ==> Clean(p.command[i])
  }

  predicate ValidManifest(m: Manifest) {
    && Clean(m.root) && Clean(m.executable) && Plain(m.exceptions)
    && forall i :: 0 <= i < |m.proofs| ==> ValidProof(m.proofs[i])
  }

  /** Characters that stand for themselves in a JSON string. */
  predicate Plain(s: string) {
    forall i :: 0 <= i < |s| ==> s[i] >= ' ' && s[i] != '"' && s[i] != '\\'
  }

  lemma {:induction false} PlainText(s: string)
    requires Plain(s)
    ensures JsonText(s) == s && Clean(s)
  {
    if s != "" {
      assert forall i :: 0 <= i < |s[1..]| ==> s[1..][i] == s[i + 1];
      PlainText(s[1..]);
      assert JsonChar(s[0]) == [s[0]];
      assert [s[0]] + s[1..] == s;
    }
  }

  /** The arguments of a command, with the separator to write before each of them. */
  function ArgumentsText(arguments: seq<string>, separator: string): string {
    if arguments == [] then ""
    else separator + Quoted(arguments[0]) + ArgumentsText(arguments[1..], ",")
  }

  function ProofText(p: Proof): string {
    "{\"name\":\"" + p.name + "\",\"timeout\":" + p.timeout + ",\"directory\":" + Quoted(p.directory)
    + ",\"command\":[" + ArgumentsText(p.command, "") + "]}"
  }

  function ProofsText(proofs: seq<Proof>, separator: string): string {
    if proofs == [] then "" else separator + ProofText(proofs[0]) + ProofsText(proofs[1..], ",")
  }

  function ManifestText(m: Manifest): string {
    "{\"root\":" + Quoted(m.root) + ",\"executable\":" + Quoted(m.executable) + ",\"exceptions\":\"" + m.exceptions
    + "\",\"proofs\":[" + ProofsText(m.proofs, "") + "]}\n"
  }

  lemma {:induction false} ArgumentsSnoc(arguments: seq<string>, last: string, separator: string)
    ensures ArgumentsText(arguments + [last], separator)
         == ArgumentsText(arguments, separator) + (if arguments == [] then separator else ",") + Quoted(last)
  {
    if arguments == [] {
      assert arguments + [last] == [last];
      assert separator + Quoted(last) + "" == "" + separator + Quoted(last);
    } else {
      var whole := arguments + [last];
      assert whole[1..] == arguments[1..] + [last];
      ArgumentsSnoc(arguments[1..], last, ",");
      Associate(separator + Quoted(arguments[0]), ArgumentsText(arguments[1..], ",") + ",", Quoted(last));
      Associate(separator + Quoted(arguments[0]), ArgumentsText(arguments[1..], ","), ",");
    }
  }

  lemma {:induction false} ProofsSnoc(proofs: seq<Proof>, last: Proof, separator: string)
    ensures ProofsText(proofs + [last], separator)
         == ProofsText(proofs, separator) + (if proofs == [] then separator else ",") + ProofText(last)
  {
    if proofs == [] {
      assert proofs + [last] == [last];
      assert separator + ProofText(last) + "" == "" + separator + ProofText(last);
    } else {
      var whole := proofs + [last];
      assert whole[1..] == proofs[1..] + [last];
      ProofsSnoc(proofs[1..], last, ",");
      Associate(separator + ProofText(proofs[0]), ProofsText(proofs[1..], ",") + ",", ProofText(last));
      Associate(separator + ProofText(proofs[0]), ProofsText(proofs[1..], ","), ",");
    }
  }

  /** The text of one proof, appended after a separator. */
  method AppendProof(json: string, separator: string, p: Proof) returns (extended: string)
    ensures extended == json + (separator + ProofText(p))
  {
    var directory := JsonString(p.directory);
    extended := json + (separator + "{\"name\":\"" + p.name + "\",\"timeout\":" + p.timeout + ",\"directory\":"
                        + directory + ",\"command\":[");
    ghost var start := extended;
    var argumentSeparator := "";
    for i := 0 to |p.command|
      invariant argumentSeparator == if i == 0 then "" else ","
      invariant extended == start + ArgumentsText(p.command[..i], "")
    {
      var argument := JsonString(p.command[i]);
      ArgumentsSnoc(p.command[..i], p.command[i], "");
      assert p.command[..i] + [p.command[i]] == p.command[..i + 1];
      Associate(ArgumentsText(p.command[..i], ""), argumentSeparator, argument);
      Associate(start, ArgumentsText(p.command[..i], ""), argumentSeparator + argument);
      extended := extended + (argumentSeparator + argument);
      argumentSeparator := ",";
    }
    assert p.command[..|p.command|] == p.command;
    extended := extended + "]}";
    ProofTextParts(json, separator, p);
  }

  lemma ProofTextParts(json: string, separator: string, p: Proof)
    ensures json + (separator + "{\"name\":\"" + p.name + "\",\"timeout\":" + p.timeout + ",\"directory\":"
                    + Quoted(p.directory) + ",\"command\":[") + ArgumentsText(p.command, "") + "]}"
         == json + (separator + ProofText(p))
  {
    var l1, l2, l3, l4 := "{\"name\":\"", "\",\"timeout\":", ",\"directory\":", ",\"command\":[";
    var directory, arguments := Quoted(p.directory), ArgumentsText(p.command, "");
    var front := l1 + p.name + l2 + p.timeout + l3 + directory + l4;
    assert separator + l1 + p.name + l2 + p.timeout + l3 + directory + l4 == separator + front by {
      Nest(separator, l1, p.name, l2, p.timeout, l3 + (directory + l4));
      Nest(l1, p.name, l2, p.timeout, l3, directory + l4);
      Associate(separator + l1 + p.name + l2 + p.timeout, l3, directory + l4);
      Associate(separator + l1 + p.name + l2 + p.timeout + l3, directory, l4);
      Associate(l1 + p.name + l2 + p.timeout + l3, directory, l4);
    }
    Associate(separator, front, arguments);
    Associate(separator, front + arguments, "]}");
    Associate(json, separator + front, arguments);
    Associate(json, separator + front + arguments, "]}");
  }

  lemma ProofAppended(start: string, proofs: seq<Proof>, i: nat, separator: string)
    requires i < |proofs| && separator == if i == 0 then "" else ","
    ensures start + ProofsText(proofs[..i], "") + (separator + ProofText(proofs[i]))
         == start + ProofsText(proofs[..i + 1], "")
  {
    ProofsSnoc(proofs[..i], proofs[i], "");
    assert proofs[..i] + [proofs[i]] == proofs[..i + 1];
    Associate(ProofsText(proofs[..i], ""), separator, ProofText(proofs[i]));
    Associate(start, ProofsText(proofs[..i], ""), separator + ProofText(proofs[i]));
  }

  method CoverageManifest(m: Manifest) returns (json: string)
    ensures json == ManifestText(m)
  {
    var root := JsonString(m.root);
    var executable := JsonString(m.executable);
    json := "{\"root\":" + root + ",\"executable\":" + executable + ",\"exceptions\":\"" + m.exceptions
            + "\",\"proofs\":[";
    ghost var start := json;
    var separator := "";
    for i := 0 to |m.proofs|
      invariant separator == if i == 0 then "" else ","
      invariant json == start + ProofsText(m.proofs[..i], "")
    {
      ProofAppended(start, m.proofs, i, separator);
      json := AppendProof(json, separator, m.proofs[i]);
      separator := ",";
    }
    assert m.proofs[..|m.proofs|] == m.proofs;
    json := json + "]}\n";
  }

  // ---- reading the document ----

  /** The value that a document must stand for. */
  function ArgumentItems(arguments: seq<string>): seq<Json> {
    if arguments == [] then [] else [String(arguments[0])] + ArgumentItems(arguments[1..])
  }

  function ProofJson(p: Proof): Json {
    Object([("name", String(p.name)), ("timeout", Number(p.timeout)), ("directory", String(p.directory)),
            ("command", Array(ArgumentItems(p.command)))])
  }

  function ProofItems(proofs: seq<Proof>): seq<Json> {
    if proofs == [] then [] else [ProofJson(proofs[0])] + ProofItems(proofs[1..])
  }

  function ManifestJson(m: Manifest): Json {
    Object([("root", String(m.root)), ("executable", String(m.executable)), ("exceptions", String(m.exceptions)),
            ("proofs", Array(ProofItems(m.proofs)))])
  }

  /** The value under a key. The last one counts. */
  function Field(members: seq<(string, Json)>, key: string): Option<Json> {
    if members == [] then None
    else if members[|members| - 1].0 == key then Some(members[|members| - 1].1)
    else Field(members[..|members| - 1], key)
  }

  function StringField(members: seq<(string, Json)>, key: string): Option<string> {
    var value :- Field(members, key);
    if value.String? then Some(value.text) else None
  }

  function ItemsField(members: seq<(string, Json)>, key: string): Option<seq<Json>> {
    var value :- Field(members, key);
    if value.Array? then Some(value.items) else None
  }

  function Strings(items: seq<Json>): Option<seq<string>> {
    if items == [] then Some([])
    else if items[0].String? then
      var more :- Strings(items[1..]);
      Some([items[0].text] + more)
    else None
  }

  /** A proof, taken from a JSON value by its keys. */
  function ProofOf(value: Json): Option<Proof> {
    if !value.Object? then None
    else
      var name :- StringField(value.members, "name");
      var timeout :- Field(value.members, "timeout");
      var directory :- StringField(value.members, "directory");
      var items :- ItemsField(value.members, "command");
      var command :- Strings(items);
      if timeout.Number? then Some(Proof(name, timeout.digits, directory, command)) else None
  }

  function ProofsOf(items: seq<Json>): Option<seq<Proof>> {
    if items == [] then Some([])
    else
      var p :- ProofOf(items[0]);
      var more :- ProofsOf(items[1..]);
      Some([p] + more)
  }

  /** A manifest, taken from a JSON value by its keys. */
  function ManifestOf(value: Json): Option<Manifest> {
    if !value.Object? then None
    else
      var root :- StringField(value.members, "root");
      var executable :- StringField(value.members, "executable");
      var exceptions :- StringField(value.members, "exceptions");
      var items :- ItemsField(value.members, "proofs");
      var proofs :- ProofsOf(items);
      Some(Manifest(root, executable, exceptions, proofs))
  }

  // ---- printed values read back ----

  lemma QuotedValue(s: string, rest: string)
    requires Clean(s)
    ensures ReadValue(Quoted(s) + rest) == Some((String(s), rest))
  {
    Associate("\"", JsonText(s), "\"");
    Associate("\"", JsonText(s) + "\"", rest);
    StringRoundTrip(s, rest);
    StringReads(JsonText(s) + "\"" + rest, s, rest);
  }

  lemma CountValue(digits: string, rest: string)
    requires IsCount(digits) && rest != "" && rest[0] == ','
    ensures ReadValue(digits + rest) == Some((Number(digits), rest))
  {
    var s := digits + rest;
    PlainNumber(digits, rest);
    assert s[0] == digits[0];
    NumberReads(s, |digits|);
    assert s[..|digits|] == digits && s[|digits|..] == rest;
  }

  /** A key as the writer prints it. */
  function KeyText(key: string): string {
    "\"" + key + "\":"
  }

  lemma KeyIsQuoted(key: string, rest: string)
    requires Plain(key)
    ensures KeyText(key) + rest == Quoted(key) + (":" + rest)
  {
    PlainText(key);
    assert "\":" == "\"" + ":";
    Associate("\"" + key, "\"", ":");
    Associate("\"" + key + "\"", ":", rest);
  }

  lemma KeyReads(key: string, rest: string)
    requires Plain(key)
    ensures ReadString(KeyText(key) + rest) == Some((key, ":" + rest))
  {
    KeyIsQuoted(key, rest);
    PlainText(key);
    QuotedReads(key, ":" + rest);
  }

  /** One more member of an object. */
  lemma MemberThenMore(first: bool, key: string, text: string, v: Json, tail: string, members: seq<(string, Json)>,
                       rest: string)
    requires Plain(key) && ReadValue(text) == Some((v, tail)) && ReadMembers(tail, false) == Some((members, rest))
    ensures ReadMembers((if first then "" else ",") + KeyText(key) + text, first) == Some(([(key, v)] + members, rest))
  {
    var body := KeyText(key) + text;
    var s := (if first then "" else ",") + KeyText(key) + text;
    assert s == if first then body else "," + body;
    KeyReads(key, text);
    NoSpace(body);
    NoSpace(s);
    StripConcat(",", body);
    NoSpace(":" + text);
    StripConcat(":", text);
  }

  lemma ItemThenMore(first: bool, text: string, v: Json, tail: string, items: seq<Json>, rest: string)
    requires text != "" && !IsSpace(text[0]) && text[0] != ']'
    requires ReadValue(text) == Some((v, tail)) && ReadItems(tail, false) == Some((items, rest))
    ensures ReadItems((if first then "" else ",") + text, first) == Some(([v] + items, rest))
  {
    var s := (if first then "" else ",") + text;
    assert s == if first then text else "," + text;
    NoSpace(s);
    StripConcat(",", text);
  }

  lemma {:induction false} ArgumentsRead(arguments: seq<string>, first: bool, rest: string)
    requires forall i :: 0 <= i < |arguments| ==> Clean(arguments[i])
    ensures ReadItems(ArgumentsText(arguments, if first then "" else ",") + ("]" + rest), first)
         == Some((ArgumentItems(arguments), rest))
    decreases |arguments|
  {
    var separator := if first then "" else ",";
    if arguments == [] {
      assert "" + ("]" + rest) == "]" + rest;
      NoSpace("]" + rest);
    } else {
      var tail := ArgumentsText(arguments[1..], ",") + ("]" + rest);
      var text := Quoted(arguments[0]) + tail;
      Associate(separator + Quoted(arguments[0]), ArgumentsText(arguments[1..], ","), "]" + rest);
      Associate(separator, Quoted(arguments[0]), tail);
      assert Clean(arguments[0]);
      QuotedValue(arguments[0], tail);
      ArgumentsRead(arguments[1..], false, rest);
      ItemThenMore(first, text, String(arguments[0]), tail, ArgumentItems(arguments[1..]), rest);
    }
  }

  lemma Nest(a: string, b: string, c: string, d: string, e: string, rest: string)
    ensures a + b + c + d + e + rest == a + (b + (c + (d + (e + rest))))
  {
    Associate(a + b + c + d, e, rest);
    Associate(a + b + c, d, e + rest);
    Associate(a + b, c, d + (e + rest));
    Associate(a, b, c + (d + (e + rest)));
  }

  /** A quoted text printed as an opening that ends in a quote, the text, and what begins with one. */
  lemma QuoteBetween(open: string, quote: string, text: string, next: string, rest: string)
    ensures (open + quote) + (text + ((quote + next) + rest)) == open + ((quote + text + quote) + (next + rest))
  {
    Associate(open, quote, text + ((quote + next) + rest));
    Associate(quote, next, rest);
    Associate(text, quote, next + rest);
    Associate(quote, text, quote + (next + rest));
    Associate(quote + text, quote, next + rest);
  }

  /** Nine pieces, and what follows, nested to the right. */
  lemma NestNine(a: string, b: string, c: string, d: string, e: string, f: string, g: string, h: string, i: string,
                 rest: string)
    ensures a + b + c + d + e + f + g + h + i + rest
         == a + (b + (c + (d + (e + (f + (g + (h + (i + rest))))))))
  {
    Nest(a + b + c + d + e, f, g, h, i, rest);
    Nest(a, b, c, d, e, f + (g + (h + (i + rest))));
  }

  lemma ProofPieces(p: Proof, rest: string)
    ensures ProofText(p) + rest
         == "{\"name\":\"" + (p.name + ("\",\"timeout\":" + (p.timeout + (",\"directory\":" + (Quoted(p.directory)
            + (",\"command\":[" + (ArgumentsText(p.command, "") + ("]}" + rest))))))))
  {
    NestNine("{\"name\":\"", p.name, "\",\"timeout\":", p.timeout, ",\"directory\":", Quoted(p.directory),
             ",\"command\":[", ArgumentsText(p.command, ""), "]}", rest);
  }

  lemma NamePieces(name: string, after: string)
    requires Plain(name)
    ensures "{\"name\":\"" + (name + ("\",\"timeout\":" + after))
         == "{\"name\":" + (Quoted(name) + (",\"timeout\":" + after))
  {
    PlainText(name);
    assert "{\"name\":\"" == "{\"name\":" + "\"" && "\",\"timeout\":" == "\"" + ",\"timeout\":";
    QuoteBetween("{\"name\":", "\"", name, ",\"timeout\":", after);
  }

  /** The text of a proof, nested the way it is read. */
  lemma ProofNesting(p: Proof, rest: string)
    requires Plain(p.name)
    ensures ProofText(p) + rest
         == "{\"name\":" + (Quoted(p.name) + (",\"timeout\":" + (p.timeout + (",\"directory\":" + (Quoted(p.directory)
            + (",\"command\":[" + (ArgumentsText(p.command, "") + ("]" + ("}" + rest)))))))))
  {
    ProofPieces(p, rest);
    var arguments := ArgumentsText(p.command, "");
    var after := Quoted(p.directory) + (",\"command\":[" + (arguments + ("]}" + rest)));
    assert "]}" + rest == "]" + ("}" + rest);
    NamePieces(p.name, p.timeout + (",\"directory\":" + after));
  }

  /** Members as the writer prints them: the text before a value is a separator and a key. */
  lemma StringMember(prefix: string, key: string, s: string, tail: string, members: seq<(string, Json)>, rest: string)
    requires prefix == "," + KeyText(key) && Plain(key) && Clean(s)
    requires ReadMembers(tail, false) == Some((members, rest))
    ensures ReadMembers(prefix + (Quoted(s) + tail), false) == Some(([(key, String(s))] + members, rest))
  {
    QuotedValue(s, tail);
    MemberThenMore(false, key, Quoted(s) + tail, String(s), tail, members, rest);
  }

  lemma CountMember(prefix: string, key: string, digits: string, tail: string, members: seq<(string, Json)>,
                    rest: string)
    requires prefix == "," + KeyText(key) && Plain(key) && IsCount(digits) && tail != "" && tail[0] == ','
    requires ReadMembers(tail, false) == Some((members, rest))
    ensures ReadMembers(prefix + (digits + tail), false) == Some(([(key, Number(digits))] + members, rest))
  {
    CountValue(digits, tail);
    MemberThenMore(false, key, digits + tail, Number(digits), tail, members, rest);
  }

  lemma ArrayMember(prefix: string, key: string, text: string, items: seq<Json>, tail: string,
                    members: seq<(string, Json)>, rest: string)
    requires prefix == "," + KeyText(key) + "[" && Plain(key)
    requires ReadItems(text, true) == Some((items, tail)) && ReadMembers(tail, false) == Some((members, rest))
    ensures ReadMembers(prefix + text, false) == Some(([(key, Array(items))] + members, rest))
  {
    ArrayReads(text, items, tail);
    MemberThenMore(false, key, "[" + text, Array(items), tail, members, rest);
    Associate("," + KeyText(key), "[", text);
  }

  /** An object begins with a member whose value is a string. */
  lemma ObjectReads(prefix: string, key: string, s: string, tail: string, members: seq<(string, Json)>, rest: string)
    requires prefix == "{" + KeyText(key) && Plain(key) && Clean(s)
    requires ReadMembers(tail, false) == Some((members, rest))
    ensures ReadValue(prefix + (Quoted(s) + tail)) == Some((Object([(key, String(s))] + members), rest))
  {
    var value := Quoted(s) + tail;
    QuotedValue(s, tail);
    MemberThenMore(true, key, value, String(s), tail, members, rest);
    assert "" + KeyText(key) == KeyText(key);
    Associate("{", KeyText(key), value);
    ObjectOpens(KeyText(key) + value, [(key, String(s))] + members, rest);
  }

  lemma ObjectEnds(rest: string)
    ensures ReadMembers("}" + rest, false) == Some(([], rest))
  {
    NoSpace("}" + rest);
  }

  lemma ProofKeys()
    ensures Plain("name") && Plain("timeout") && Plain("directory") && Plain("command")
    ensures "{\"name\":" == "{" + KeyText("name") && ",\"timeout\":" == "," + KeyText("timeout")
    ensures ",\"directory\":" == "," + KeyText("directory") && ",\"command\":[" == "," + KeyText("command") + "["
  {
  }

  lemma ManifestKeys()
    ensures Plain("root") && Plain("executable") && Plain("exceptions") && Plain("proofs")
    ensures "{\"root\":" == "{" + KeyText("root") && ",\"executable\":" == "," + KeyText("executable")
    ensures ",\"exceptions\":" == "," + KeyText("exceptions") && ",\"proofs\":[" == "," + KeyText("proofs") + "["
  {
    FirstKeys();
    LastKeys();
  }

  lemma FirstKeys()
    ensures "{\"root\":" == "{" + KeyText("root") && ",\"executable\":" == "," + KeyText("executable")
  {
  }

  lemma LastKeys()
    ensures ",\"exceptions\":" == "," + KeyText("exceptions") && ",\"proofs\":[" == "," + KeyText("proofs") + "["
  {
  }

  /** The members of a proof after its name. */
  lemma ProofMembersRead(p: Proof, end: string, rest: string)
    requires ValidProof(p) && ReadMembers(end, false) == Some(([], rest))
    ensures var s4 := ",\"command\":[" + (ArgumentsText(p.command, "") + ("]" + end));
            var s3 := ",\"directory\":" + (Quoted(p.directory) + s4);
            ReadMembers(",\"timeout\":" + (p.timeout + s3), false)
            == Some(([("timeout", Number(p.timeout))] + ([("directory", String(p.directory))]
                     + ([("command", Array(ArgumentItems(p.command)))] + [])), rest))
  {
    var items := ArgumentsText(p.command, "") + ("]" + end);
    var s4 := ",\"command\":[" + items;
    var s3 := ",\"directory\":" + (Quoted(p.directory) + s4);
    var command := [("command", Array(ArgumentItems(p.command)))] + [];
    ProofKeys();
    ArgumentsRead(p.command, true, end);
    ArrayMember(",\"command\":[", "command", items, ArgumentItems(p.command), end, [], rest);
    StringMember(",\"directory\":", "directory", p.directory, s4, command, rest);
    CountMember(",\"timeout\":", "timeout", p.timeout, s3, [("directory", String(p.directory))] + command, rest);
  }

  lemma FourMembers(a: (string, Json), b: (string, Json), c: (string, Json), d: (string, Json))
    ensures [a] + ([b] + ([c] + ([d] + []))) == [a, b, c, d]
  {
  }

  lemma ProofReads(p: Proof, rest: string)
    requires ValidProof(p)
    ensures ReadValue(ProofText(p) + rest) == Some((ProofJson(p), rest))
    ensures ProofText(p) + rest != "" && (ProofText(p) + rest)[0] == '{'
  {
    var s4 := ",\"command\":[" + (ArgumentsText(p.command, "") + ("]" + ("}" + rest)));
    var s2 := ",\"timeout\":" + (p.timeout + (",\"directory\":" + (Quoted(p.directory) + s4)));
    ProofNesting(p, rest);
    PlainText(p.name);
    ProofKeys();
    ObjectEnds(rest);
    ProofMembersRead(p, "}" + rest, rest);
    ObjectReads("{\"name\":", "name", p.name, s2,
                [("timeout", Number(p.timeout))] + ([("directory", String(p.directory))]
                + ([("command", Array(ArgumentItems(p.command)))] + [])), rest);
    FourMembers(("name", String(p.name)), ("timeout", Number(p.timeout)), ("directory", String(p.directory)),
                ("command", Array(ArgumentItems(p.command))));
  }

  lemma {:induction false} ProofsRead(proofs: seq<Proof>, first: bool, rest: string)
    requires forall i :: 0 <= i < |proofs| ==> ValidProof(proofs[i])
    ensures ReadItems(ProofsText(proofs, if first then "" else ",") + ("]" + rest), first)
         == Some((ProofItems(proofs), rest))
    decreases |proofs|
  {
    var separator := if first then "" else ",";
    if proofs == [] {
      assert "" + ("]" + rest) == "]" + rest;
      NoSpace("]" + rest);
    } else {
      var tail := ProofsText(proofs[1..], ",") + ("]" + rest);
      Associate(separator + ProofText(proofs[0]), ProofsText(proofs[1..], ","), "]" + rest);
      Associate(separator, ProofText(proofs[0]), tail);
      ProofReads(proofs[0], tail);
      ProofsRead(proofs[1..], false, rest);
      ItemThenMore(first, ProofText(proofs[0]) + tail, ProofJson(proofs[0]), tail, ProofItems(proofs[1..]), rest);
    }
  }

  /** The members of a manifest after its root. */
  lemma ManifestMembersRead(m: Manifest, end: string, rest: string)
    requires ValidManifest(m) && ReadMembers(end, false) == Some(([], rest))
    ensures var s3 := ",\"proofs\":[" + (ProofsText(m.proofs, "") + ("]" + end));
            var s2 := ",\"exceptions\":" + (Quoted(m.exceptions) + s3);
            ReadMembers(",\"executable\":" + (Quoted(m.executable) + s2), false)
            == Some(([("executable", String(m.executable))] + ([("exceptions", String(m.exceptions))]
                     + ([("proofs", Array(ProofItems(m.proofs)))] + [])), rest))
  {
    var items := ProofsText(m.proofs, "") + ("]" + end);
    var s3 := ",\"proofs\":[" + items;
    var s2 := ",\"exceptions\":" + (Quoted(m.exceptions) + s3);
    var proofs := [("proofs", Array(ProofItems(m.proofs)))] + [];
    ManifestKeys();
    PlainText(m.exceptions);
    ProofsRead(m.proofs, true, end);
    ArrayMember(",\"proofs\":[", "proofs", items, ProofItems(m.proofs), end, [], rest);
    StringMember(",\"exceptions\":", "exceptions", m.exceptions, s3, proofs, rest);
    StringMember(",\"executable\":", "executable", m.executable, s2, [("exceptions", String(m.exceptions))] + proofs,
                 rest);
  }

  /** The document that the loops write is one JSON value: the manifest's. */
  lemma ManifestIsJson(m: Manifest)
    requires ValidManifest(m)
    ensures ReadDocument(ManifestText(m)) == Some(ManifestJson(m))
  {
    var s3 := ",\"proofs\":[" + (ProofsText(m.proofs, "") + ("]" + "}\n"));
    var s1 := ",\"executable\":" + (Quoted(m.executable) + (",\"exceptions\":" + (Quoted(m.exceptions) + s3)));
    ManifestNesting(m);
    ManifestKeys();
    ObjectEnds("\n");
    assert "}" + "\n" == "}\n";
    ManifestMembersRead(m, "}\n", "\n");
    ObjectReads("{\"root\":", "root", m.root, s1,
                [("executable", String(m.executable))] + ([("exceptions", String(m.exceptions))]
                + ([("proofs", Array(ProofItems(m.proofs)))] + [])), "\n");
    FourMembers(("root", String(m.root)), ("executable", String(m.executable)), ("exceptions", String(m.exceptions)),
                ("proofs", Array(ProofItems(m.proofs))));
    assert SkipSpace("\n") == "";
  }

  lemma {:induction false} ArgumentsTaken(arguments: seq<string>)
    ensures Strings(ArgumentItems(arguments)) == Some(arguments)
  {
    if arguments != [] {
      ArgumentsTaken(arguments[1..]);
      assert [arguments[0]] + arguments[1..] == arguments;
    }
  }

  /** The last of four members with different keys, and the ones before it. */
  lemma FourFields(members: seq<(string, Json)>)
    requires |members| == 4 && forall i, j :: 0 <= i < j < 4 ==> members[i].0 != members[j].0
    ensures forall i :: 0 <= i < 4 ==> Field(members, members[i].0) == Some(members[i].1)
  {
    var three := members[..3];
    assert three[..2] == members[..2] && members[..2][..1] == members[..1] && members[..1][..0] == [];
    assert Field(members[..1], members[0].0) == Some(members[0].1);
    assert Field(members[..2], members[0].0) == Some(members[0].1);
    assert Field(members[..2], members[1].0) == Some(members[1].1);
    assert forall i :: 0 <= i < 3 ==> Field(three, members[i].0) == Some(members[i].1);
  }

  lemma ProofTaken(p: Proof)
    ensures ProofOf(ProofJson(p)) == Some(p)
  {
    ArgumentsTaken(p.command);
    var members := ProofJson(p).members;
    assert members[0].0 == "name" && members[1].0 == "timeout" && members[2].0 == "directory"
        && members[3].0 == "command";
    FourFields(members);
  }

  lemma {:induction false} ProofsTaken(proofs: seq<Proof>)
    ensures ProofsOf(ProofItems(proofs)) == Some(proofs)
  {
    if proofs != [] {
      ProofTaken(proofs[0]);
      ProofsTaken(proofs[1..]);
      assert [proofs[0]] + proofs[1..] == proofs;
    }
  }

  /** The document that the loops write is JSON, and what a reader of JSON finds in it by its keys is
      the same root, executable and mode, and the same proofs and argument vectors in the same
      order. */
  lemma ManifestRoundTrip(m: Manifest)
    requires ValidManifest(m)
    ensures ReadDocument(ManifestText(m)).Some? && ManifestOf(ReadDocument(ManifestText(m)).value) == Some(m)
  {
    ManifestIsJson(m);
    ProofsTaken(m.proofs);
    var members := ManifestJson(m).members;
    assert members[0].0 == "root" && members[1].0 == "executable" && members[2].0 == "exceptions"
        && members[3].0 == "proofs";
    FourFields(members);
  }

  lemma ManifestNesting(m: Manifest)
    requires Plain(m.exceptions)
    ensures ManifestText(m)
         == "{\"root\":" + (Quoted(m.root) + (",\"executable\":" + (Quoted(m.executable) + (",\"exceptions\":"
            + (Quoted(m.exceptions) + (",\"proofs\":[" + (ProofsText(m.proofs, "") + ("]" + "}\n"))))))))
  {
    var l1, l2, l3, l4, l5 := "{\"root\":", ",\"executable\":", ",\"exceptions\":\"", "\",\"proofs\":[", "]}\n";
    var root, executable, proofs := Quoted(m.root), Quoted(m.executable), ProofsText(m.proofs, "");
    var s4 := l4 + (proofs + l5);
    assert ManifestText(m) == l1 + (root + (l2 + (executable + (l3 + (m.exceptions + s4))))) by {
      Associate(l1 + root + l2 + executable + l3 + m.exceptions + l4, proofs, l5);
      Associate(l1 + root + l2 + executable + l3 + m.exceptions, l4, proofs + l5);
      Associate(l1 + root + l2 + executable + l3, m.exceptions, s4);
      Nest(l1, root, l2, executable, l3, m.exceptions + s4);
    }
    assert l5 == "]" + "}\n";
    ExceptionsPieces(m.exceptions, proofs + l5);
  }

  lemma ExceptionsPieces(exceptions: string, after: string)
    requires Plain(exceptions)
    ensures ",\"exceptions\":\"" + (exceptions + ("\",\"proofs\":[" + after))
         == ",\"exceptions\":" + (Quoted(exceptions) + (",\"proofs\":[" + after))
  {
    PlainText(exceptions);
    assert ",\"exceptions\":\"" == ",\"exceptions\":" + "\"" && "\",\"proofs\":[" == "\"" + ",\"proofs\":[";
    QuoteBetween(",\"exceptions\":", "\"", exceptions, ",\"proofs\":[", after);
  }
}
