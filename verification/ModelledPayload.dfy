/** The payload of a modelled message, `id=ID text location="file:line" tag="value"`: how it is
    assembled in pieces, and how it is read back. */
module ModelledPayload {
  import opened Decimal
  import opened Insertions
  import opened StreamSpec
  import opened Text
  import opened Wrappers

  datatype Attribute = Location(file: string, line: nat) | Tag(value: string)

  /** The statically known kind of an attribute: its tuple element type. */
  datatype Kind = LocationKind | TagKind

  function KindOf(a: Attribute): Kind {
    if a.Location? then LocationKind else TagKind
  }

  function KindsOf(attributes: seq<Attribute>): seq<Kind> {
    if attributes == [] then []
    else KindsOf(attributes[..|attributes| - 1]) + [KindOf(attributes[|attributes| - 1])]
  }

  predicate IsIdChar(c: char) {
    'A' <= c <= 'Z' || 'a' <= c <= 'z' || '0' <= c <= '9' || c == '_'
  }

  predicate IsValidMessageId(id: string) {
    id != "" && forall i :: 0 <= i < |id| ==> IsIdChar(id[i])
  }

  predicate ValidAttribute(a: Attribute) {
    a.Location? ==> a.line <= 0xFFFF_FFFF
  }

  /** What the attribute tuple's type guarantees: at most one of each kind. */
  predicate ValidAttributes(attributes: seq<Attribute>) {
    && (forall i :: 0 <= i < |attributes| ==> ValidAttribute(attributes[i]))
    && forall i, j :: 0 <= i < j < |attributes| ==> KindOf(attributes[i]) != KindOf(attributes[j])
  }

  // ---- assembling ----

  function EscapedValueChar(c: char): string {
    if c == '\\' || c == '"' then ['\\', c] else [c]
  }

  function EscapedValue(value: string): string {
    if value == "" then "" else EscapedValueChar(value[0]) + EscapedValue(value[1..])
  }

  function Prefix(kind: Kind): string {
    match kind
    case LocationKind => " location=\""
    case TagKind => " tag=\""
  }

  function AttributeBody(a: Attribute): string {
    match a
    case Location(file, line) => EscapedValue(file) + ":" + Natural(line)
    case Tag(value) => EscapedValue(value)
  }

  function AttributeText(a: Attribute): string {
    Prefix(KindOf(a)) + AttributeBody(a) + "\""
  }

  function AttributesText(attributes: seq<Attribute>): string {
    if attributes == [] then ""
    else AttributesText(attributes[..|attributes| - 1]) + AttributeText(attributes[|attributes| - 1])
  }

  function Head(id: string, text: string): string {
    "id=" + id + Separated(false, text)
  }

  /** The whole payload. */
  function Payload(id: string, text: string, attributes: seq<Attribute>): string {
    Head(id, text) + AttributesText(attributes)
  }

  // ---- the message writer ----

  /** The stream insertions one writer insertion makes. */
  function WriterPieces(started: bool, insertion: Insertion): seq<Piece> {
    match insertion
    case Characters("") => []
    case CString(None) => [None]
    case CString(Some("")) => []
    case _ => if started then [insertion.Rendering()] else [Some(" "), insertion.Rendering()]
  }

  function WriterStarted(started: bool, insertion: Insertion): bool {
    match insertion
    case Characters("") => started
    case CString(None) => started
    case CString(Some("")) => started
    case _ => true
  }

  function WriterAll(started: bool, insertions: seq<Insertion>): seq<Piece>
    decreases |insertions|
  {
    if insertions == [] then []
    else WriterPieces(started, insertions[0]) + WriterAll(WriterStarted(started, insertions[0]), insertions[1..])
  }

  predicate AllValid(insertions: seq<Insertion>) {
    forall i :: 0 <= i < |insertions| ==> insertions[i].Valid()
  }

  /** No null C string was inserted and no formatting failed. */
  predicate AllRender(insertions: seq<Insertion>) {
    forall i :: 0 <= i < |insertions| ==> insertions[i].Rendering().Some?
  }

  /** What a message's rendering says, however it was split into insertions. */
  function TextOf(insertions: seq<Insertion>): string
    requires AllRender(insertions)
  {
    if insertions == [] then "" else insertions[0].Rendering().value + TextOf(insertions[1..])
  }

  /** However a rendering is split, empty pieces included, the writer produces its text with one
      space before it, or nothing at all when the text is empty. */
  lemma {:induction false} WriterSeparates(started: bool, insertions: seq<Insertion>)
    requires AllValid(insertions)
    ensures NoFailure(WriterAll(started, insertions)) <==> AllRender(insertions)
    ensures AllRender(insertions) ==>
              Joined(WriterAll(started, insertions)) == Separated(started, TextOf(insertions))
    decreases |insertions|
  {
    if insertions != [] {
      var first, rest := insertions[0], insertions[1..];
      var now, more := WriterPieces(started, first), WriterAll(WriterStarted(started, first), rest);
      WriterSeparates(WriterStarted(started, first), rest);
      JoinedAppend(now, more);
      FailureAppend(now, more);
      RenderingShape(started, first);
      RenderSplit(insertions);
      if AllRender(insertions) {
        SeparatorJoins(started, first.Rendering().value, TextOf(rest));
      }
    }
  }

  /** The text with the separator it gets: one space, unless text came before or there is none. */
  function Separated(started: bool, text: string): string {
    (if started || text == "" then "" else " ") + text
  }

  lemma SeparatorJoins(started: bool, first: string, rest: string)
    ensures Separated(started, first) + Separated(started || first != "", rest) == Separated(started, first + rest)
  {
    assert "" + rest == rest;
    Associate(" ", first, rest);
  }

  lemma RenderSplit(insertions: seq<Insertion>)
    requires insertions != []
    ensures AllRender(insertions) <==> insertions[0].Rendering().Some? && AllRender(insertions[1..])
  {
    if insertions[0].Rendering().Some? && AllRender(insertions[1..]) {
      forall i | 0 <= i < |insertions| ensures insertions[i].Rendering().Some? {
        if i > 0 {
          assert insertions[i] == insertions[1..][i - 1];
        }
      }
    }
  }

  lemma FailureAppend(left: seq<Piece>, right: seq<Piece>)
    ensures NoFailure(left + right) <==> NoFailure(left) && NoFailure(right)
  {
    if NoFailure(left + right) {
      forall i | 0 <= i < |left| ensures left[i].Some? {
        assert (left + right)[i] == left[i];
      }
      forall i | 0 <= i < |right| ensures right[i].Some? {
        assert (left + right)[|left| + i] == right[i];
      }
    }
  }

  lemma RenderingShape(started: bool, insertion: Insertion)
    requires insertion.Valid()
    ensures NoFailure(WriterPieces(started, insertion)) <==> insertion.Rendering().Some?
    ensures insertion.Rendering().Some? ==>
              var text := insertion.Rendering().value;
              && WriterStarted(started, insertion) == (started || text != "")
              && Joined(WriterPieces(started, insertion)) == Separated(started, text)
  {
    var pieces := WriterPieces(started, insertion);
    if |pieces| == 1 {
      assert Joined(pieces[1..]) == "";
      assert pieces[0] == insertion.Rendering();
    } else if |pieces| == 2 {
      assert pieces[1..] == [insertion.Rendering()];
      assert Joined(pieces[1..][1..]) == "";
      assert pieces[0] == Some(" ") && pieces[1] == insertion.Rendering();
    }
  }

  lemma InsertNothing<L>(s: StreamState<L>)
    requires s.pending.Bytes? ==> |s.pending.text| <= MESSAGE_CAPACITY
    ensures Inserted(s, Some("")) == s
  {
    assert s.pending.Bytes? ==> s.pending.text + "" == s.pending.text;
  }

  /** Inserting a text in two parts is inserting it at once. */
  lemma InsertTwice<L>(s: StreamState<L>, first: string, second: string)
    ensures Inserted(Inserted(s, Some(first)), Some(second)) == Inserted(s, Some(first + second))
  {
    if s.pending.Bytes? {
      Associate(s.pending.text, first, second);
    }
  }

  lemma {:induction false} EscapedValueAppend(left: string, right: string)
    ensures EscapedValue(left + right) == EscapedValue(left) + EscapedValue(right)
  {
    if left == "" {
      assert left + right == right;
    } else {
      assert (left + right)[1..] == left[1..] + right;
      EscapedValueAppend(left[1..], right);
    }
  }

  lemma EscapedValueOne(c: char)
    ensures EscapedValue([c]) == EscapedValueChar(c)
  {
    assert [c][1..] == "";
    assert EscapedValueChar(c) + "" == EscapedValueChar(c);
  }

  lemma EscapedValueSnoc(value: string, c: char)
    ensures EscapedValue(value + [c]) == EscapedValue(value) + EscapedValueChar(c)
  {
    EscapedValueAppend(value, [c]);
    EscapedValueOne(c);
  }

  lemma EscapedValueStep(value: string, i: nat)
    requires i < |value|
    ensures EscapedValue(value[..i + 1]) == EscapedValue(value[..i]) + EscapedValueChar(value[i])
  {
    assert value[..i + 1] == value[..i] + [value[i]];
    EscapedValueSnoc(value[..i], value[i]);
  }

  lemma EscapedValueCut(value: string, i: nat)
    requires i <= |value|
    ensures EscapedValue(value) == EscapedValue(value[..i]) + EscapedValue(value[i..])
  {
    assert value == value[..i] + value[i..];
    EscapedValueAppend(value[..i], value[i..]);
  }

  /** The piecewise assembly of a payload on an enabled, empty stream leaves exactly the payload
      pending when every piece renders and it fits, and a failure otherwise. */
  lemma AssembledPayload<L>(id: string, rendering: seq<Insertion>, attributes: seq<Attribute>, s: StreamState<L>)
    requires AllValid(rendering) && s.Live() && s.pending == Bytes("")
    ensures Inserted(InsertedAll(Inserted(Inserted(s, Some("id=")), Some(id)), WriterAll(false, rendering)),
                     Some(AttributesText(attributes)))
         == s.(pending := if AllRender(rendering) && |Payload(id, TextOf(rendering), attributes)| <= MESSAGE_CAPACITY
                          then Bytes(Payload(id, TextOf(rendering), attributes)) else Failed)
  {
    var pieces := WriterAll(false, rendering);
    var all := [Some("id="), Some(id)] + pieces + [Some(AttributesText(attributes))];
    assert all == [Some("id=")] + ([Some(id)] + (pieces + [Some(AttributesText(attributes))]));
    WriterSeparates(false, rendering);
    InsertedAllGathers(s, [], all);
    assert [] + all == all;
    var s1 := Inserted(s, Some("id="));
    var s2 := Inserted(s1, Some(id));
    assert InsertedAll(s2, pieces + [Some(AttributesText(attributes))])
        == Inserted(InsertedAll(s2, pieces), Some(AttributesText(attributes))) by {
      InsertedAllAppend(s2, pieces, [Some(AttributesText(attributes))]);
    }
    assert InsertedAll(s, all) == InsertedAll(s2, pieces + [Some(AttributesText(attributes))]) by {
      assert all[1..] == [Some(id)] + (pieces + [Some(AttributesText(attributes))]);
      assert all[1..][1..] == pieces + [Some(AttributesText(attributes))];
    }
    PayloadPieces(id, pieces, AttributesText(attributes));
  }

  lemma PayloadPieces(id: string, pieces: seq<Piece>, attributes: string)
    ensures var all := [Some("id="), Some(id)] + pieces + [Some(attributes)];
            && (NoFailure(all) <==> NoFailure(pieces))
            && Joined(all) == "id=" + id + Joined(pieces) + attributes
  {
    var front: seq<Piece> := [Some("id="), Some(id)];
    FailureAppend(front, pieces);
    FailureAppend(front + pieces, [Some(attributes)]);
    JoinedAppend(front, pieces);
    JoinedAppend(front + pieces, [Some(attributes)]);
    assert front[1..] == [Some(id)] && front[1..][1..] == [];
    assert Joined(front) == "id=" + (id + "");
    assert Joined([Some(attributes)]) == attributes + "";
  }

  // ---- reading back ----

  /** Splits at the last occurrence of `mark`, dropping it. */
  function SplitLast(s: string, mark: string): Option<(string, string)> {
    if s == "" then None
    else match SplitLast(s[1..], mark)
      case Some((before, after)) => Some(([s[0]] + before, after))
      case None => if mark <= s then Some(("", s[|mark|..])) else None
  }

  /** Undoes the escaping of an attribute value; nothing when it is not an escaped value. */
  function UnescapeValue(s: string): Option<string> {
    if s == "" then Some("")
    else if s[0] == '"' then None
    else if s[0] == '\\' then
      if |s| == 1 || (s[1] != '\\' && s[1] != '"') then None
      else
        var rest :- UnescapeValue(s[2..]);
        Some([s[1]] + rest)
    else
      var rest :- UnescapeValue(s[1..]);
      Some([s[0]] + rest)
  }

  function DecodeBody(kind: Kind, body: string): Option<Attribute> {
    match kind
    case LocationKind =>
      var (fileText, lineText) :- SplitLast(body, ":");
      var file :- UnescapeValue(fileText);
      if lineText != "" && AllDigits(lineText) then Some(Location(file, Value(lineText))) else None
    case TagKind =>
      var value :- UnescapeValue(body);
      Some(Tag(value))
  }

  /** Takes the last attribute, of a known kind, off a payload. */
  function TakeAttribute(kind: Kind, payload: string): Option<(string, Attribute)> {
    if payload == "" || payload[|payload| - 1] != '"' then None
    else
      var (rest, body) :- SplitLast(payload[..|payload| - 1], Prefix(kind));
      var a :- DecodeBody(kind, body);
      Some((rest, a))
  }

  function TakeAttributes(kinds: seq<Kind>, payload: string): Option<(string, seq<Attribute>)> {
    if kinds == [] then Some((payload, []))
    else
      var (rest, last) :- TakeAttribute(kinds[|kinds| - 1], payload);
      var (head, attributes) :- TakeAttributes(kinds[..|kinds| - 1], rest);
      Some((head, attributes + [last]))
  }

  function DecodeHead(head: string): Option<(string, string)> {
    var s :- Strip("id=", head);
    match Until(s, ' ')
    case None => Some((s, ""))
    case Some((id, text)) => Some((id, text))
  }

  /** Reads a payload whose attribute kinds are known: id, text and attributes. */
  function DecodePayload(kinds: seq<Kind>, payload: string): Option<(string, string, seq<Attribute>)> {
    var (head, attributes) :- TakeAttributes(kinds, payload);
    var (id, text) :- DecodeHead(head);
    Some((id, text, attributes))
  }

  /** Every quote is escaped. */
  predicate QuotesEscaped(s: string) {
    forall k :: 0 <= k < |s| && s[k] == '"' ==> k >= 1 && s[k - 1] == '\\'
  }

  lemma {:induction false} EscapedValueReads(value: string)
    ensures UnescapeValue(EscapedValue(value)) == Some(value)
    ensures QuotesEscaped(EscapedValue(value))
  {
    if value != "" {
      EscapedValueReads(value[1..]);
      var head, rest := EscapedValueChar(value[0]), EscapedValue(value[1..]);
      var s := EscapedValue(value);
      assert s[|head|..] == rest;
      assert [value[0]] + value[1..] == value;
      forall k | 0 <= k < |s| && s[k] == '"' ensures k >= 1 && s[k - 1] == '\\' {
        if k >= |head| {
          assert rest[k - |head|] == '"';
        }
      }
    }
  }

  /** A mark that occurs nowhere is not found. */
  lemma {:induction false} SplitLastAbsent(s: string, mark: string)
    requires forall j :: 0 <= j < |s| ==> !(mark <= s[j..])
    ensures SplitLast(s, mark) == None
  {
    if s != "" {
      forall j | 0 <= j < |s[1..]| ensures !(mark <= s[1..][j..]) {
        assert s[1..][j..] == s[j + 1..];
      }
      SplitLastAbsent(s[1..], mark);
      assert s[0..] == s;
    }
  }

  /** The last occurrence is the one with no occurrence after it. */
  lemma {:induction false} SplitLastFinds(front: string, mark: string, back: string)
    requires mark != ""
    requires forall j :: 1 <= j < |mark + back| ==> !(mark <= (mark + back)[j..])
    ensures SplitLast(front + mark + back, mark) == Some((front, back))
  {
    var s := front + mark + back;
    if front == "" {
      assert s == mark + back && s[|mark|..] == back;
      forall j | 0 <= j < |s[1..]| ensures !(mark <= s[1..][j..]) {
        assert s[1..][j..] == (mark + back)[j + 1..];
      }
      SplitLastAbsent(s[1..], mark);
    } else {
      assert s[1..] == front[1..] + mark + back;
      SplitLastFinds(front[1..], mark, back);
      assert [s[0]] + front[1..] == front;
    }
  }

  /** An attribute prefix that begins after the first would end in the body, in an unescaped quote. */
  lemma LaterPrefix(kind: Kind, body: string, j: nat)
    requires 1 <= j < |Prefix(kind) + body| && Prefix(kind) <= (Prefix(kind) + body)[j..]
    ensures j - 1 < |body| && body[j - 1] == '"' && (j >= 2 ==> body[j - 2] == '=')
  {
    var mark, s, n := Prefix(kind), Prefix(kind) + body, |Prefix(kind)|;
    assert s[j..][n - 1] == mark[n - 1] == '"';
    assert s[j..][n - 2] == mark[n - 2] == '=';
    assert s[j + n - 1] == body[j - 1];
    assert j >= 2 ==> s[j + n - 2] == body[j - 2];
  }

  lemma PrefixNotInBody(kind: Kind, body: string, j: nat)
    requires QuotesEscaped(body) && 1 <= j < |Prefix(kind) + body|
    ensures !(Prefix(kind) <= (Prefix(kind) + body)[j..])
  {
    if Prefix(kind) <= (Prefix(kind) + body)[j..] {
      LaterPrefix(kind, body, j);
    }
  }

  lemma LocationBodyReads(file: string, line: nat)
    ensures DecodeBody(LocationKind, EscapedValue(file) + ":" + Natural(line)) == Some(Location(file, line))
  {
    var back := Natural(line);
    EscapedValueReads(file);
    NaturalValue(line);
    forall j | 1 <= j < |":" + back| ensures !(":" <= (":" + back)[j..]) {
      assert (":" + back)[j..][0] == back[j - 1];
    }
    SplitLastFinds(EscapedValue(file), ":", back);
  }

  lemma LocationBodyEscaped(file: string, line: nat)
    ensures QuotesEscaped(EscapedValue(file) + ":" + Natural(line))
  {
    EscapedValueReads(file);
    var front, back := EscapedValue(file), Natural(line);
    var s := front + ":" + back;
    assert forall k :: |front| < k < |s| ==> s[k] == back[k - |front| - 1];
    assert forall k :: 0 <= k < |front| ==> s[k] == front[k];
  }

  lemma BodyReads(a: Attribute)
    ensures DecodeBody(KindOf(a), AttributeBody(a)) == Some(a) && QuotesEscaped(AttributeBody(a))
  {
    match a {
      case Location(file, line) =>
        LocationBodyReads(file, line);
        LocationBodyEscaped(file, line);
      case Tag(value) => EscapedValueReads(value);
    }
  }

  lemma LastPrefixFound(front: string, kind: Kind, body: string)
    requires QuotesEscaped(body)
    ensures SplitLast(front + Prefix(kind) + body, Prefix(kind)) == Some((front, body))
  {
    forall j | 1 <= j < |Prefix(kind) + body| ensures !(Prefix(kind) <= (Prefix(kind) + body)[j..]) {
      PrefixNotInBody(kind, body, j);
    }
    SplitLastFinds(front, Prefix(kind), body);
  }

  lemma AttributeReads(front: string, a: Attribute)
    ensures TakeAttribute(KindOf(a), front + AttributeText(a)) == Some((front, a))
  {
    var kind, body := KindOf(a), AttributeBody(a);
    var payload, inner := front + AttributeText(a), front + Prefix(kind) + body;
    assert payload == inner + "\"" by {
      Associate(front, Prefix(kind) + body, "\"");
      Associate(front, Prefix(kind), body);
    }
    assert payload[..|payload| - 1] == inner;
    BodyReads(a);
    LastPrefixFound(front, kind, body);
  }

  lemma TakeOneMore(kinds: seq<Kind>, kind: Kind, payload: string, rest: string, last: Attribute,
                    head: string, attributes: seq<Attribute>)
    requires TakeAttribute(kind, payload) == Some((rest, last))
    requires TakeAttributes(kinds, rest) == Some((head, attributes))
    ensures TakeAttributes(kinds + [kind], payload) == Some((head, attributes + [last]))
  {
    assert (kinds + [kind])[..|kinds + [kind]| - 1] == kinds;
  }

  lemma ReadOneMore(front: string, text: string, attributes: seq<Attribute>, last: Attribute)
    requires TakeAttributes(KindsOf(attributes), front + text) == Some((front, attributes))
    ensures TakeAttributes(KindsOf(attributes) + [KindOf(last)], front + (text + AttributeText(last)))
         == Some((front, attributes + [last]))
  {
    AttributeReads(front + text, last);
    Associate(front, text, AttributeText(last));
    TakeOneMore(KindsOf(attributes), KindOf(last), front + text + AttributeText(last), front + text, last,
                front, attributes);
  }

  lemma {:induction false} AttributesRead(front: string, attributes: seq<Attribute>)
    ensures TakeAttributes(KindsOf(attributes), front + AttributesText(attributes)) == Some((front, attributes))
    decreases |attributes|
  {
    if attributes == [] {
      assert front + "" == front;
    } else {
      var init, last := attributes[..|attributes| - 1], attributes[|attributes| - 1];
      assert init + [last] == attributes;
      AttributesRead(front, init);
      ReadOneMore(front, AttributesText(init), init, last);
    }
  }

  lemma HeadReads(id: string, text: string)
    requires IsValidMessageId(id)
    ensures DecodeHead(Head(id, text)) == Some((id, text))
  {
    assert ' ' !in id;
    if text == "" {
      assert Head(id, text) == "id=" + id;
      StripConcat("id=", id);
      UntilAbsent(id, ' ');
    } else {
      assert Head(id, text) == "id=" + (id + [' '] + text);
      StripConcat("id=", id + [' '] + text);
      UntilConcat(id, ' ', text);
    }
  }

  lemma {:induction false} UntilAbsent(s: string, c: char)
    requires c !in s
    ensures Until(s, c) == None
  {
    if s != "" {
      UntilAbsent(s[1..], c);
    }
  }

  /** With the attribute kinds known, as the message's type makes them, a payload determines its
      id, its text and every attribute, whatever bytes they hold. */
  lemma PayloadRoundTrip(id: string, text: string, attributes: seq<Attribute>)
    requires IsValidMessageId(id)
    ensures DecodePayload(KindsOf(attributes), Payload(id, text, attributes)) == Some((id, text, attributes))
  {
    AttributesRead(Head(id, text), attributes);
    HeadReads(id, text);
  }

  // ---- reading back without the kinds ----

  /** The text, as it stands in the payload, ends in a complete attribute of the kind. */
  predicate EndsIn(kind: Kind, text: string) {
    match TakeAttribute(kind, Separated(false, text))
    case None => false
    case Some((front, a)) => front != " " && ValidAttribute(a) && Separated(false, text) == front + AttributeText(a)
  }

  predicate EndsInAttribute(text: string) {
    EndsIn(LocationKind, text) || EndsIn(TagKind, text)
  }

  /** The payload is that of a message that a type can produce. */
  predicate Reads(payload: string, id: string, text: string, attributes: seq<Attribute>) {
    IsValidMessageId(id) && ValidAttributes(attributes) && Payload(id, text, attributes) == payload
  }

  /** What stands after the id: the text of some message, for anything that is empty or begins with
      a space and is not only that. */
  function TextAfter(tail: string): string {
    if tail == "" then "" else tail[1..]
  }

  lemma AttributesStart(attributes: seq<Attribute>)
    requires attributes != []
    ensures |AttributesText(attributes)| >= 2 && AttributesText(attributes)[0] == ' '
  {
    if |attributes| > 1 {
      AttributesStart(attributes[..|attributes| - 1]);
    } else {
      assert AttributesText(attributes[..0]) == "";
    }
  }

  /** Whatever stands after the id can be read as text. */
  lemma TailIsText(text: string, attributes: seq<Attribute>)
    ensures var tail := Separated(false, text) + AttributesText(attributes);
            Separated(false, TextAfter(tail)) == tail && tail != " "
  {
    if attributes != [] {
      AttributesStart(attributes);
    }
    var tail := Separated(false, text) + AttributesText(attributes);
    if tail != "" {
      assert tail == " " + tail[1..];
    }
  }

  lemma HeadTail(id: string, text: string, rest: string)
    ensures Head(id, text) + rest == "id=" + (id + (Separated(false, text) + rest))
  {
    Associate("id=", id, Separated(false, text));
    Associate("id=", id + Separated(false, text), rest);
    Associate(id, Separated(false, text), rest);
  }

  /** The attributes of a message can be read as text. */
  lemma AttributesAsText(id: string, text: string, attributes: seq<Attribute>)
    requires IsValidMessageId(id)
    ensures Reads(Payload(id, text, attributes), id, TextAfter(Separated(false, text) + AttributesText(attributes)), [])
  {
    var tail := Separated(false, text) + AttributesText(attributes);
    TailIsText(text, attributes);
    HeadTail(id, text, AttributesText(attributes));
    HeadTail(id, TextAfter(tail), "");
    assert tail + "" == tail;
  }

  /** Text that ends in an attribute can be read as one. */
  lemma TextAsAttribute(id: string, text: string, kind: Kind)
    requires IsValidMessageId(id) && EndsIn(kind, text)
    ensures exists text', a :: Reads(Payload(id, text, []), id, text', [a])
  {
    var (front, a) := TakeAttribute(kind, Separated(false, text)).value;
    var text' := TextAfter(front);
    FrontIsText(text, front, a);
    AttributeOnTail(id, text, text', a);
    assert Reads(Payload(id, text, []), id, text', [a]);
  }

  lemma AttributeOnTail(id: string, text: string, text': string, a: Attribute)
    requires Separated(false, text) == Separated(false, text') + AttributeText(a)
    ensures Payload(id, text', [a]) == Payload(id, text, [])
  {
    assert [a][..0] == [];
    assert "" + AttributeText(a) == AttributeText(a);
    assert AttributesText([a]) == AttributeText(a);
    HeadTail(id, text', AttributeText(a));
    HeadTail(id, text, "");
    assert Separated(false, text) + "" == Separated(false, text);
  }

  lemma SpaceInLonger(id: string, tail: string, id': string, tail': string)
    requires id + tail == id' + tail' && |id| < |id'| && (tail == "" || tail[0] == ' ')
    ensures id'[|id|] == ' '
  {
    assert (id + tail)[|id|] == (id' + tail')[|id|];
  }

  /** The id ends at the first space, if there is one, in any reading. */
  lemma IdDetermined(id: string, tail: string, id': string, tail': string)
    requires IsValidMessageId(id) && IsValidMessageId(id') && id + tail == id' + tail'
    requires (tail == "" || tail[0] == ' ') && (tail' == "" || tail'[0] == ' ')
    ensures id == id' && tail == tail'
  {
    if |id| < |id'| {
      SpaceInLonger(id, tail, id', tail');
    } else if |id'| < |id| {
      SpaceInLonger(id', tail', id, tail);
    } else {
      var s := id + tail;
      assert s[..|id|] == id && s[|id|..] == tail && s[..|id'|] == id' && s[|id'|..] == tail';
    }
  }

  lemma PayloadsAlike(id: string, text: string, attributes: seq<Attribute>, id': string, text': string,
                      attributes': seq<Attribute>)
    requires IsValidMessageId(id) && Reads(Payload(id, text, attributes), id', text', attributes')
    ensures id == id'
    ensures Separated(false, text) + AttributesText(attributes) == Separated(false, text') + AttributesText(attributes')
  {
    var tail := Separated(false, text) + AttributesText(attributes);
    var tail' := Separated(false, text') + AttributesText(attributes');
    TailIsText(text, attributes);
    TailIsText(text', attributes');
    HeadTail(id, text, AttributesText(attributes));
    HeadTail(id', text', AttributesText(attributes'));
    StripConcat("id=", id + tail);
    StripConcat("id=", id' + tail');
    IdDetermined(id, tail, id', tail');
  }

  lemma SeparatedDetermines(a: string, b: string)
    requires Separated(false, a) == Separated(false, b)
    ensures a == b
  {
    assert a != "" ==> Separated(false, a)[1..] == a;
    assert b != "" ==> Separated(false, b)[1..] == b;
  }

  /** A message without attributes whose text does not end in one has no other reading. */
  lemma OnlyReading(id: string, text: string, id': string, text': string, attributes': seq<Attribute>)
    requires IsValidMessageId(id) && !EndsInAttribute(text)
    requires Reads(Payload(id, text, []), id', text', attributes')
    ensures id' == id && text' == text && attributes' == []
  {
    PayloadsAlike(id, text, [], id', text', attributes');
    assert Separated(false, text) + "" == Separated(false, text);
    if attributes' != [] {
      var init, last := attributes'[..|attributes'| - 1], attributes'[|attributes'| - 1];
      var front := Separated(false, text') + AttributesText(init);
      Associate(Separated(false, text'), AttributesText(init), AttributeText(last));
      TailIsText(text', init);
      AttributeReads(front, last);
      assert EndsIn(KindOf(last), text);
    } else {
      assert Separated(false, text') + "" == Separated(false, text');
      SeparatedDetermines(text', text);
    }
  }

  /** What the test for an attribute at the end of a text means. */
  lemma EndsInAttributeMeans(text: string)
    ensures EndsInAttribute(text)
       <==> exists front, a :: ValidAttribute(a) && Separated(false, text) == Separated(false, front) + AttributeText(a)
  {
    if EndsInAttribute(text) {
      var kind := if EndsIn(LocationKind, text) then LocationKind else TagKind;
      var (front, a) := TakeAttribute(kind, Separated(false, text)).value;
      FrontIsText(text, front, a);
    }
    forall front, a | ValidAttribute(a) && Separated(false, text) == Separated(false, front) + AttributeText(a)
      ensures EndsIn(KindOf(a), text)
    {
      AttributeReads(Separated(false, front), a);
    }
  }

  lemma FrontIsText(text: string, front: string, a: Attribute)
    requires Separated(false, text) == front + AttributeText(a) && front != " "
    ensures Separated(false, TextAfter(front)) == front
  {
    if front != "" {
      assert front[0] == Separated(false, text)[0] == ' ';
      assert front == " " + front[1..];
    }
  }

  /** When a payload alone determines its message: exactly when there are no attributes and the text
      does not end in what would be one. Every payload with attributes has a second reading, in
      which they are text. */
  lemma PayloadAloneDetermines(id: string, text: string, attributes: seq<Attribute>)
    requires IsValidMessageId(id) && ValidAttributes(attributes)
    ensures (forall id', text', attributes' :: Reads(Payload(id, text, attributes), id', text', attributes') ==>
               id' == id && text' == text && attributes' == attributes)
       <==> attributes == [] && !EndsInAttribute(text)
  {
    if attributes != [] {
      AttributesAsText(id, text, attributes);
    } else if EndsInAttribute(text) {
      TextAsAttribute(id, text, if EndsIn(LocationKind, text) then LocationKind else TagKind);
    } else {
      forall id', text', attributes' | Reads(Payload(id, text, attributes), id', text', attributes')
        ensures id' == id && text' == text && attributes' == attributes
      {
        OnlyReading(id, text, id', text', attributes');
      }
    }
  }

  /** A text that passes for an attribute, as an input. */
  lemma UnknownKindsAreAmbiguous()
    ensures exists id: string, text: string, attributes: seq<Attribute>, text': string, attributes': seq<Attribute> ::
              && IsValidMessageId(id)
              && attributes != attributes'
              && Payload(id, text, attributes) == Payload(id, text', attributes')
  {
    var none: seq<Attribute> := [];
    var tag := [Tag("a")];
    assert EscapedValue("a") == "a" + EscapedValue("a"[1..]);
    assert AttributesText(tag) == " tag=\"a\"";
    assert Payload("M", "x tag=\"a\"", none) == Payload("M", "x", tag);
    assert IsValidMessageId("M");
  }
}
