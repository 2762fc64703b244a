/**
 The server-sent-event printer, and the event-stream parser of the WHATWG HTML Living Standard,
 sections 9.2.5 (parsing) and 9.2.6 (interpreting), that reads what it prints.
 */
module Sse {
  import opened Wrappers
  import Decimal

  // ---------- Printing ----------

  /** What the server writes: messages whose data is already JSON text, and comments. */
  datatype Item =
    | Message(json: string, event: Option<string>, eventId: Option<string>, retry: Option<int>)
    | Comment(comment: string)

  /** Python's truth test on an optional string. */
  predicate Given(s: Option<string>) {
    s.Some? && s.value != ""
  }

  function FieldLine(name: string, value: string): string {
    name + ": " + value
  }

  function IdLines(eventId: Option<string>): seq<string> {
    if Given(eventId) then [FieldLine("id", eventId.value)] else []
  }

  function EventLines(event: Option<string>): seq<string> {
    if Given(event) then [FieldLine("event", event.value)] else []
  }

  function RetryLines(retry: Option<int>): seq<string> {
    if retry.Some? && retry.value != 0 then [FieldLine("retry", Decimal.Str(retry.value))] else []
  }

  /** The block of lines of an item, its closing empty line included. */
  function ItemLines(item: Item): seq<string> {
    match item
    case Message(json, event, eventId, retry) =>
      IdLines(eventId) + EventLines(event) + RetryLines(retry) + [FieldLine("data", json), ""]
    case Comment(comment) => [FieldLine("", comment), ""]
  }

  function Terminated(lines: seq<string>): string {
    if lines == [] then "" else lines[0] + "\n" + Terminated(lines[1..])
  }

  function ItemText(item: Item): string {
    Terminated(ItemLines(item))
  }

  function StreamText(items: seq<Item>): string {
    if items == [] then "" else ItemText(items[0]) + StreamText(items[1..])
  }

  /** Python's `sep.join(lines)` for a newline separator. */
  function JoinLines(lines: seq<string>): string {
    if lines == [] then ""
    else if |lines| == 1 then lines[0]
    else lines[0] + "\n" + JoinLines(lines[1..])
  }

  lemma {:induction false} JoinedBlock(lines: seq<string>)
    requires lines != []
    ensures JoinLines(lines) + "\n\n" == Terminated(lines + [""])
  {
    if |lines| == 1 {
      assert (lines + [""])[1..] == [""];
      assert Terminated([""]) == "\n";
    } else {
      JoinedBlock(lines[1..]);
      assert (lines + [""])[1..] == lines[1..] + [""];
    }
  }

  method FormatSseMessage(json: string, event: Option<string>, eventId: Option<string>, retry: Option<int>)
    returns (text: string)
    ensures text == ItemText(Message(json, event, eventId, retry))
  {
    var lines: seq<string> := [];
    if Given(eventId) {
      lines := lines + [FieldLine("id", eventId.value)];
    }
    assert lines == IdLines(eventId);
    if Given(event) {
      lines := lines + [FieldLine("event", event.value)];
    }
    assert lines == IdLines(eventId) + EventLines(event);
    if retry.Some? && retry.value != 0 {
      lines := lines + [FieldLine("retry", Decimal.Str(retry.value))];
    }
    assert lines == IdLines(eventId) + EventLines(event) + RetryLines(retry);
    Associate(lines, [FieldLine("data", json)], [""]);
    assert [FieldLine("data", json)] + [""] == [FieldLine("data", json), ""];
    lines := lines + [FieldLine("data", json)];
    text := JoinLines(lines) + "\n\n";
    JoinedBlock(lines);
  }

  method FormatSseComment(comment: string) returns (text: string)
    ensures text == ItemText(Comment(comment))
  {
    var line := FieldLine("", comment);
    text := line + "\n\n";
    JoinedBlock([line]);
    assert [line] + [""] == ItemLines(Comment(comment));
  }

  // ---------- Parsing: section 9.2.5 ----------

  predicate IsBreak(c: char) {
    c == '\n' || c == '\r'
  }

  predicate SingleLine(s: string) {
    forall i :: 0 <= i < |s| ==> !IsBreak(s[i])
  }

  function StripBom(s: string): string {
    if s != "" && s[0] == '\U{FEFF}' then s[1..] else s
  }

  /** Length of the first line, without its terminator. */
  function LineLength(s: string): (n: nat)
    ensures n <= |s|
  {
    if s == "" || IsBreak(s[0]) then 0 else 1 + LineLength(s[1..])
  }

  function Terminator(s: string, n: nat): (k: nat)
    requires n < |s|
    ensures 1 <= k <= |s| - n
  {
    if s[n] == '\r' && n + 1 < |s| && s[n + 1] == '\n' then 2 else 1
  }

  /** The terminated lines of a stream; a line cut off by the end of the stream is discarded. */
  function SplitLines(s: string): seq<string>
    decreases |s|
  {
    var n := LineLength(s);
    if n == |s| then [] else [s[..n]] + SplitLines(s[n + Terminator(s, n)..])
  }

  // ---------- Interpreting: section 9.2.6 ----------

  datatype Event = Event(eventType: string, data: string, lastEventId: string)

  datatype Client = Client(
    dataBuffer: string,
    typeBuffer: string,
    idBuffer: string,
    lastEventId: string,
    reconnectionTime: Option<nat>,
    dispatched: seq<Event>)

  const NEW_CLIENT := Client("", "", "", "", None, [])

  function ColonIndex(line: string): (i: nat)
    ensures i <= |line|
  {
    if line == "" || line[0] == ':' then 0 else 1 + ColonIndex(line[1..])
  }

  function StripSpace(value: string): string {
    if value != "" && value[0] == ' ' then value[1..] else value
  }

  function ProcessField(c: Client, field: string, value: string): Client {
    if field == "event" then c.(typeBuffer := value)
    else if field == "data" then c.(dataBuffer := c.dataBuffer + value + "\n")
    else if field == "id" then
      if '\0' in value then c else c.(idBuffer := value)
    else if field == "retry" then
      if value != "" && Decimal.AllDigits(value) then c.(reconnectionTime := Some(Decimal.ParseNat(value))) else c
    else c
  }

  function DispatchEvent(c: Client): Client {
    var d := c.(lastEventId := c.idBuffer, dataBuffer := "", typeBuffer := "");
    if c.dataBuffer == "" then d
    else
      var n := |c.dataBuffer|;
      var data := if c.dataBuffer[n - 1] == '\n' then c.dataBuffer[..n - 1] else c.dataBuffer;
      var eventType := if c.typeBuffer == "" then "message" else c.typeBuffer;
      d.(dispatched := c.dispatched + [Event(eventType, data, c.idBuffer)])
  }

  function ProcessLine(c: Client, line: string): Client {
    if line == "" then DispatchEvent(c)
    else if line[0] == ':' then c
    else
      var i := ColonIndex(line);
      if i < |line| then ProcessField(c, line[..i], StripSpace(line[i + 1..]))
      else ProcessField(c, line, "")
  }

  function ProcessLines(c: Client, lines: seq<string>): Client
    decreases |lines|
  {
    if lines == [] then c else ProcessLines(ProcessLine(c, lines[0]), lines[1..])
  }

  function Interpret(stream: string): Client {
    ProcessLines(NEW_CLIENT, SplitLines(StripBom(stream)))
  }

  // ---------- What a reader should receive ----------

  datatype Inbox = Inbox(lastEventId: string, reconnectionTime: Option<nat>, received: seq<Event>)

  function Deliver(inbox: Inbox, item: Item): Inbox {
    match item
    case Comment(_) => inbox
    case Message(json, event, eventId, retry) =>
      var id := if Given(eventId) then eventId.value else inbox.lastEventId;
      Inbox(
        id,
        if retry.Some? && retry.value > 0 then Some(retry.value) else inbox.reconnectionTime,
        inbox.received + [Event(if Given(event) then event.value else "message", json, id)])
  }

  function DeliverAll(inbox: Inbox, items: seq<Item>): Inbox
    decreases |items|
  {
    if items == [] then inbox else DeliverAll(Deliver(inbox, items[0]), items[1..])
  }

  const NEW_INBOX := Inbox("", None, [])

  /** The client between two items: buffers empty, id buffer and last event id in agreement. */
  function Between(inbox: Inbox): Client {
    Client("", "", inbox.lastEventId, inbox.lastEventId, inbox.reconnectionTime, inbox.received)
  }

  /** JSON text and comment text never hold a line break; that much the printer relies on. */
  predicate PlainBody(item: Item) {
    match item
    case Message(json, _, _, _) => SingleLine(json)
    case Comment(comment) => SingleLine(comment)
  }

  /** The event name and id fit on one line, and the id holds no NUL. */
  predicate CleanHeaders(item: Item) {
    item.Message? ==>
      && (Given(item.event) ==> SingleLine(item.event.value))
      && (Given(item.eventId) ==> SingleLine(item.eventId.value) && '\0' !in item.eventId.value)
  }

  // ---------- Round trip ----------

  lemma {:induction false} LineLengthOf(line: string, rest: string)
    requires SingleLine(line)
    ensures LineLength(line + "\n" + rest) == |line|
  {
    var s := line + "\n" + rest;
    if line != "" {
      assert s[1..] == line[1..] + "\n" + rest;
      LineLengthOf(line[1..], rest);
    }
  }

  lemma SplitFirstLine(line: string, rest: string)
    requires SingleLine(line)
    ensures SplitLines(line + "\n" + rest) == [line] + SplitLines(rest)
  {
    var s := line + "\n" + rest;
    LineLengthOf(line, rest);
    assert s[..|line|] == line;
    assert s[|line|] == '\n';
    assert s[|line| + 1..] == rest;
  }

  lemma PrependLine(line: string, lines: seq<string>, text: string, rest: string)
    requires SingleLine(line) && SplitLines(text + rest) == lines + SplitLines(rest)
    ensures SplitLines((line + "\n" + text) + rest) == ([line] + lines) + SplitLines(rest)
  {
    Associate(line + "\n", text, rest);
    SplitFirstLine(line, text + rest);
    Associate([line], lines, SplitLines(rest));
  }

  lemma Associate<T>(a: seq<T>, b: seq<T>, c: seq<T>)
    ensures (a + b) + c == a + (b + c)
  {
  }

  lemma {:induction false} SplitTerminated(lines: seq<string>, rest: string)
    requires forall line <- lines :: SingleLine(line)
    ensures SplitLines(Terminated(lines) + rest) == lines + SplitLines(rest)
    decreases |lines|
  {
    if lines == [] {
      assert Terminated(lines) + rest == rest;
    } else {
      SplitTerminated(lines[1..], rest);
      PrependLine(lines[0], lines[1..], Terminated(lines[1..]), rest);
      assert lines == [lines[0]] + lines[1..];
    }
  }

  lemma ProcessTwoLines(c: Client, a: string, b: string)
    ensures ProcessLines(c, [a, b]) == ProcessLine(ProcessLine(c, a), b)
  {
    assert [a, b][1..] == [b];
    assert ProcessLines(ProcessLine(c, a), [b]) == ProcessLine(ProcessLine(c, a), b);
  }

  lemma {:induction false} ProcessLinesConcat(c: Client, a: seq<string>, b: seq<string>)
    ensures ProcessLines(c, a + b) == ProcessLines(ProcessLines(c, a), b)
    decreases |a|
  {
    if a == [] {
      assert a + b == b;
    } else {
      assert (a + b)[1..] == a[1..] + b;
      ProcessLinesConcat(ProcessLine(c, a[0]), a[1..], b);
    }
  }

  lemma {:induction false} ColonAfterName(name: string, rest: string)
    requires ':' !in name
    ensures ColonIndex(name + ":" + rest) == |name|
  {
    if name != "" {
      assert (name + ":" + rest)[1..] == name[1..] + ":" + rest;
      ColonAfterName(name[1..], rest);
    }
  }

  /** A printed field line is read back as that field with that value, leading spaces kept. */
  lemma FieldLineIsRead(c: Client, name: string, value: string)
    requires name != "" && ':' !in name
    ensures ProcessLine(c, FieldLine(name, value)) == ProcessField(c, name, value)
  {
    var line := FieldLine(name, value);
    assert line == name + ":" + (" " + value);
    ColonAfterName(name, " " + value);
    assert line[..|name|] == name;
    assert line[|name| + 1..] == " " + value;
    assert StripSpace(" " + value) == value;
  }

  lemma RetryIsRead(c: Client, retry: int)
    requires retry != 0
    ensures ProcessLine(c, FieldLine("retry", Decimal.Str(retry)))
         == if retry > 0 then c.(reconnectionTime := Some(retry)) else c
  {
    FieldLineIsRead(c, "retry", Decimal.Str(retry));
    if retry > 0 {
      Decimal.ParseStrNat(retry);
    } else {
      assert Decimal.Str(retry)[0] == '-';
    }
  }

  lemma ItemIsRead(inbox: Inbox, item: Item)
    requires CleanHeaders(item)
    ensures ProcessLines(Between(inbox), ItemLines(item)) == Between(Deliver(inbox, item))
  {
    var c0 := Between(inbox);
    match item {
      case Comment(comment) =>
        assert ProcessLine(c0, FieldLine("", comment)) == c0;
        ProcessTwoLines(c0, FieldLine("", comment), "");
      case Message(json, event, eventId, retry) =>
        var l1, l2, l3 := IdLines(eventId), EventLines(event), RetryLines(retry);
        var id := if Given(eventId) then eventId.value else inbox.lastEventId;
        var c1 := c0.(idBuffer := id);
        var c2 := c1.(typeBuffer := if Given(event) then event.value else "");
        var c3 := c2.(reconnectionTime := Deliver(inbox, item).reconnectionTime);
        assert ProcessLines(c0, l1) == c1 by {
          if Given(eventId) { FieldLineIsRead(c0, "id", eventId.value); }
        }
        assert ProcessLines(c1, l2) == c2 by {
          if Given(event) { FieldLineIsRead(c1, "event", event.value); }
        }
        assert ProcessLines(c2, l3) == c3 by {
          if retry.Some? && retry.value != 0 { RetryIsRead(c2, retry.value); }
        }
        assert ProcessLines(c3, [FieldLine("data", json), ""]) == Between(Deliver(inbox, item)) by {
          DataIsDispatched(c3, json);
        }
        ProcessLinesConcat(c0, l1, l2);
        ProcessLinesConcat(c0, l1 + l2, l3);
        ProcessLinesConcat(c0, l1 + l2 + l3, [FieldLine("data", json), ""]);
    }
  }

  lemma DataIsDispatched(c: Client, json: string)
    requires c.dataBuffer == ""
    ensures ProcessLines(c, [FieldLine("data", json), ""])
         == Client("", "", c.idBuffer, c.idBuffer, c.reconnectionTime,
                   c.dispatched + [Event(if c.typeBuffer == "" then "message" else c.typeBuffer, json, c.idBuffer)])
  {
    FieldLineIsRead(c, "data", json);
    var d := ProcessLine(c, FieldLine("data", json));
    assert d.dataBuffer == json + "\n";
    ProcessTwoLines(c, FieldLine("data", json), "");
    assert (json + "\n")[..|json|] == json;
  }

  lemma ItemLinesAreSingle(item: Item)
    requires PlainBody(item) && CleanHeaders(item)
    ensures forall i :: 0 <= i < |ItemLines(item)| ==> SingleLine(ItemLines(item)[i])
  {
    if item.Message? && item.retry.Some? {
      var text := Decimal.Str(item.retry.value);
      assert SingleLine(text) by {
        var digits := Decimal.StrNat(if item.retry.value < 0 then -item.retry.value else item.retry.value);
        assert forall i :: 0 <= i < |digits| ==> Decimal.IsDigit(digits[i]);
      }
    }
  }

  lemma {:induction false} StreamIsRead(inbox: Inbox, items: seq<Item>)
    requires forall i :: 0 <= i < |items| ==> PlainBody(items[i]) && CleanHeaders(items[i])
    ensures ProcessLines(Between(inbox), SplitLines(StreamText(items))) == Between(DeliverAll(inbox, items))
    decreases |items|
  {
    if items != [] {
      ItemLinesAreSingle(items[0]);
      SplitTerminated(ItemLines(items[0]), StreamText(items[1..]));
      ProcessLinesConcat(Between(inbox), ItemLines(items[0]), SplitLines(StreamText(items[1..])));
      ItemIsRead(inbox, items[0]);
      StreamIsRead(Deliver(inbox, items[0]), items[1..]);
    }
  }

  lemma NoBomInFront(items: seq<Item>)
    ensures StripBom(StreamText(items)) == StreamText(items)
  {
    if items != [] {
      var first := ItemLines(items[0])[0];
      assert first != "" && first[0] in "iedr:";
      assert ItemText(items[0])[0] == first[0];
    }
  }

  /**
   Round trip: the standard's parser, given the concatenated output, dispatches exactly the
   messages, in order, with their type, data and last event id; comments dispatch nothing.
   */
  lemma {:induction false} RoundTrip(items: seq<Item>)
    requires forall i :: 0 <= i < |items| ==> PlainBody(items[i]) && CleanHeaders(items[i])
    ensures Interpret(StreamText(items)) == Between(DeliverAll(NEW_INBOX, items))
  {
    NoBomInFront(items);
    StreamIsRead(NEW_INBOX, items);
  }

  // ---------- The headers' condition is exact ----------

  ghost predicate CleanClient(c: Client) {
    && SingleLine(c.typeBuffer)
    && SingleLine(c.idBuffer) && '\0' !in c.idBuffer
    && forall i :: 0 <= i < |c.dispatched| ==> CleanEvent(c.dispatched[i])
  }

  predicate CleanEvent(e: Event) {
    SingleLine(e.eventType) && SingleLine(e.lastEventId) && '\0' !in e.lastEventId
  }

  lemma {:induction false} FirstLineIsSingle(s: string)
    ensures SingleLine(s[..LineLength(s)])
  {
    if s != "" && !IsBreak(s[0]) {
      FirstLineIsSingle(s[1..]);
      assert s[..LineLength(s)] == [s[0]] + s[1..][..LineLength(s[1..])];
    }
  }

  lemma {:induction false} SplitGivesSingleLines(s: string)
    ensures forall i :: 0 <= i < |SplitLines(s)| ==> SingleLine(SplitLines(s)[i])
    decreases |s|
  {
    var n := LineLength(s);
    FirstLineIsSingle(s);
    if n < |s| {
      SplitGivesSingleLines(s[n + Terminator(s, n)..]);
    }
  }

  lemma {:induction false} ProcessLinesKeepsClean(c: Client, lines: seq<string>)
    requires CleanClient(c) && forall i :: 0 <= i < |lines| ==> SingleLine(lines[i])
    ensures CleanClient(ProcessLines(c, lines))
    decreases |lines|
  {
    if lines != [] {
      assert SingleLine(lines[0]);
      ProcessLinesKeepsClean(ProcessLine(c, lines[0]), lines[1..]);
    }
  }

  /** Whatever the stream, no event is dispatched with a break in its type or id, or a NUL in its id. */
  lemma DispatchedAreClean(stream: string)
    ensures forall i :: 0 <= i < |Interpret(stream).dispatched| ==> CleanEvent(Interpret(stream).dispatched[i])
  {
    SplitGivesSingleLines(StripBom(stream));
    ProcessLinesKeepsClean(NEW_CLIENT, SplitLines(StripBom(stream)));
  }

  lemma {:induction false} DeliverAllKeeps(inbox: Inbox, items: seq<Item>)
    ensures inbox.received <= DeliverAll(inbox, items).received
    decreases |items|
  {
    if items != [] {
      DeliverAllKeeps(Deliver(inbox, items[0]), items[1..]);
    }
  }

  lemma {:induction false} UncleanIsDelivered(inbox: Inbox, items: seq<Item>, k: nat)
    requires k < |items| && !CleanHeaders(items[k])
    ensures exists i :: 0 <= i < |DeliverAll(inbox, items).received|
                     && !CleanEvent(DeliverAll(inbox, items).received[i])
    decreases |items|
  {
    var next := Deliver(inbox, items[0]);
    if k == 0 {
      DeliverAllKeeps(next, items[1..]);
      var i := |inbox.received|;
      assert !CleanEvent(next.received[i]);
      assert i < |DeliverAll(inbox, items).received| && DeliverAll(inbox, items).received[i] == next.received[i];
    } else {
      UncleanIsDelivered(next, items[1..], k - 1);
      var received := DeliverAll(next, items[1..]).received;
      var i :| 0 <= i < |received| && !CleanEvent(received[i]);
      assert DeliverAll(inbox, items) == DeliverAll(next, items[1..]);
    }
  }

  /** With break-free bodies, the stream is read back as written exactly when every header is clean. */
  lemma {:induction false} RoundTripExactlyWhenClean(items: seq<Item>)
    requires forall i :: 0 <= i < |items| ==> PlainBody(items[i])
    ensures Interpret(StreamText(items)).dispatched == DeliverAll(NEW_INBOX, items).received
        <==> forall i :: 0 <= i < |items| ==> CleanHeaders(items[i])
  {
    if forall i :: 0 <= i < |items| ==> CleanHeaders(items[i]) {
      RoundTrip(items);
    } else {
      var k :| 0 <= k < |items| && !CleanHeaders(items[k]);
      UncleanIsDelivered(NEW_INBOX, items, k);
      DispatchedAreClean(StreamText(items));
    }
  }
}
