/** The server's half of the framing, and the round trip through the browser's parser. */
module SseEncoding {
  import opened Wrappers
  import opened SseFraming
  import opened SseChunking

  const HEARTBEAT := ": keepalive\n\n"

  /** An event whose payload has already been serialised. */
  datatype ServerSentEvent = ServerSentEvent(name: string, payload: string)

  datatype EncodeError = IllegalName | PayloadSpansLines

  predicate LegalNameChar(c: char) {
    'a' <= c <= 'z' || c == '_'
  }

  /** `[a-z][a-z_]{0,30}` over the whole name. */
  predicate LegalName(name: string) {
    && 1 <= |name| <= 31
    && 'a' <= name[0] <= 'z'
    && forall i :: 0 <= i < |name| ==> LegalNameChar(name[i])
  }

  /** Construction checks the name, encoding checks the payload. */
  function Encode(e: ServerSentEvent): Result<string, EncodeError> {
    if !LegalName(e.name) then Err(IllegalName)
    else if '\n' in e.payload || '\r' in e.payload then Err(PayloadSpansLines)
    else Ok(EventLine(e) + "\n" + DataLine(e) + "\n\n")
  }

  function EventLine(e: ServerSentEvent): string {
    "event: " + e.name
  }

  function DataLine(e: ServerSentEvent): string {
    "data: " + e.payload
  }

  datatype Item = Event(event: ServerSentEvent) | Heartbeat

  predicate Sendable(items: seq<Item>) {
    forall i :: 0 <= i < |items| && items[i].Event? ==> Encode(items[i].event).Ok?
  }

  function WireOf(item: Item): string
    requires item.Event? ==> Encode(item.event).Ok?
  {
    if item.Heartbeat? then HEARTBEAT else Encode(item.event).value
  }

  /** What the server writes. */
  function Wire(items: seq<Item>): string
    requires Sendable(items)
  {
    if items == [] then "" else WireOf(items[0]) + Wire(items[1..])
  }

  function FrameOf(item: Item): seq<Frame> {
    if item.Heartbeat? then [] else [Frame(item.event.name, item.event.payload)]
  }

  /** What the client should see: the events' names and payloads, in order. */
  function Delivered(items: seq<Item>): seq<Frame> {
    if items == [] then [] else FrameOf(items[0]) + Delivered(items[1..])
  }

  function ItemLines(item: Item): seq<string> {
    if item.Heartbeat? then [": keepalive", ""] else [EventLine(item.event), DataLine(item.event), ""]
  }

  predicate WithinEventBound(items: seq<Item>) {
    forall i :: 0 <= i < |items| && items[i].Event? ==> |items[i].event.payload| + 1 <= MAX_EVENT_CHARS
  }

  /** Every `data:` line is within the line bound. */
  predicate WithinLineBound(items: seq<Item>) {
    forall i :: 0 <= i < |items| && items[i].Event? ==> |DataLine(items[i].event)| <= MAX_LINE_CHARS
  }

  // ----- which events encode -----

  /** The rule for names: one to 31 characters, the first a lower-case letter, the rest lower-case letters or underscores. */
  lemma NameRule(name: string)
    ensures LegalName(name) ==> 1 <= |name| <= 31
    ensures 1 <= |name| <= 31 ==>
              (LegalName(name) <==>
               && 97 <= name[0] as int <= 122
               && forall i :: 1 <= i < |name| ==> 97 <= name[i] as int <= 122 || name[i] as int == 95)
  {
  }

  /** An event encodes exactly when its name is legal and its payload is on one line. */
  lemma EncodesIff(e: ServerSentEvent)
    ensures Encode(e).Ok? <==> LegalName(e.name) && Plain(e.payload)
    ensures Encode(e).Ok? ==> Encode(e).value == "event: " + e.name + "\n" + "data: " + e.payload + "\n\n"
  {
  }

  /** Every name the protocol uses is legal. */
  lemma ProtocolNames()
    ensures LegalName("stage") && LegalName("sql") && LegalName("rows") && LegalName("done") && LegalName("error")
  {
  }

  // ----- lemmas -----

  lemma FieldOf(field: string, value: string)
    requires ':' !in field
    ensures FieldName(field + ": " + value) == field && FieldValue(field + ": " + value) == value
  {
    var line := field + ": " + value;
    assert line == field + ":" + (" " + value);
    ColonAfter(field, " " + value);
    assert line[..|field|] == field && line[|field| + 1..] == " " + value;
    assert (" " + value)[1..] == value;
  }

  lemma EventIsPlain(e: ServerSentEvent)
    requires Encode(e).Ok?
    ensures Plain(EventLine(e)) && Plain(DataLine(e))
  {
    assert forall i :: 0 <= i < |e.name| ==> LegalNameChar(e.name[i]);
  }

  lemma WireItemLines(item: Item, rest: string)
    requires item.Event? ==> Encode(item.event).Ok?
    ensures Lines(WireOf(item) + rest) == ItemLines(item) + Lines(rest)
    ensures Tail(WireOf(item) + rest) == Tail(rest)
  {
    hide Lines, Tail;
    FirstLine("", rest);
    assert "" + "\n" + rest == "\n" + rest;
    if item.Heartbeat? {
      FirstLine(": keepalive", "\n" + rest);
      assert HEARTBEAT + rest == ": keepalive" + "\n" + ("\n" + rest);
    } else {
      var e := item.event;
      EventIsPlain(e);
      FirstLine(DataLine(e), "\n" + rest);
      FirstLine(EventLine(e), DataLine(e) + "\n" + ("\n" + rest));
      assert WireOf(item) + rest == EventLine(e) + "\n" + (DataLine(e) + "\n" + ("\n" + rest));
    }
  }

  lemma ConsumeNameLine(e: ServerSentEvent)
    requires LegalName(e.name)
    ensures Consume(IDLE, EventLine(e)) == Consumed(IDLE.(eventName := e.name, sawField := true), None)
  {
    assert EventLine(e) == "event" + ": " + e.name;
    FieldOf("event", e.name);
    hide FieldName, FieldValue;
    assert EventLine(e)[0] == 'e';
  }

  lemma ConsumeDataLine(e: ServerSentEvent, a: Assembly)
    requires a.dataLines == [] && a.dataChars == 0
    ensures Consume(a, DataLine(e))
         == if |e.payload| + 1 > MAX_EVENT_CHARS then Overflow
            else Consumed(a.(dataLines := [e.payload], dataChars := |e.payload| + 1, sawField := true), None)
  {
    assert DataLine(e) == "data" + ": " + e.payload;
    FieldOf("data", e.payload);
    hide FieldName, FieldValue;
    assert DataLine(e)[0] == 'd';
    assert [] + [e.payload] == [e.payload];
  }

  function Before(frame: Option<Frame>, rest: Folded): Folded {
    if rest.TooLong? then TooLong else Folded(rest.next, OneFrame(frame) + rest.frames)
  }

  lemma FoldCons(a: Assembly, line: string, rest: seq<string>)
    ensures Consume(a, line).Overflow? ==> FoldLines(a, [line] + rest) == TooLong
    ensures Consume(a, line).Consumed? ==>
            FoldLines(a, [line] + rest) == Before(Consume(a, line).frame, FoldLines(Consume(a, line).next, rest))
  {
    assert ([line] + rest)[0] == line && ([line] + rest)[1..] == rest;
  }

  /** An item is over the event bound, or folds from idle to idle giving its frame. */
  predicate ItemFits(item: Item) {
    item.Event? ==> |item.event.payload| + 1 <= MAX_EVENT_CHARS
  }

  lemma FoldEvent(e: ServerSentEvent)
    requires LegalName(e.name)
    ensures FoldLines(IDLE, [EventLine(e), DataLine(e), ""])
         == if |e.payload| + 1 > MAX_EVENT_CHARS then TooLong else Folded(IDLE, [Frame(e.name, e.payload)])
  {
    hide Consume, EventLine, DataLine, FoldLines;
    var named := IDLE.(eventName := e.name, sawField := true);
    ConsumeNameLine(e);
    ConsumeDataLine(e, named);
    assert [EventLine(e), DataLine(e), ""] == [EventLine(e)] + [DataLine(e), ""];
    assert [DataLine(e), ""] == [DataLine(e)] + [""];
    FoldCons(IDLE, EventLine(e), [DataLine(e), ""]);
    FoldCons(named, DataLine(e), [""]);
    var full := named.(dataLines := [e.payload], dataChars := |e.payload| + 1, sawField := true);
    FoldEnd(full, e);
  }

  lemma FoldEnd(full: Assembly, e: ServerSentEvent)
    requires full.dataLines == [e.payload] && full.eventName == e.name && full.sawField && e.name != ""
    ensures FoldLines(full, [""]) == Folded(IDLE, [Frame(e.name, e.payload)])
  {
    assert [""] == [""] + [];
    FoldCons(full, "", []);
  }

  lemma FoldHeartbeat()
    ensures FoldLines(IDLE, [": keepalive", ""]) == Folded(IDLE, [])
  {
    assert [": keepalive", ""] == [": keepalive"] + [""] && [""] == [""] + [];
    FoldCons(IDLE, ": keepalive", [""]);
    FoldCons(IDLE, "", []);
  }

  function WireLines(items: seq<Item>): seq<string> {
    if items == [] then [] else ItemLines(items[0]) + WireLines(items[1..])
  }

  lemma {:induction false} WireIsLines(items: seq<Item>)
    requires Sendable(items)
    ensures Lines(Wire(items)) == WireLines(items) && Tail(Wire(items)) == ""
  {
    if items != [] {
      WireIsLines(items[1..]);
      WireItemLines(items[0], Wire(items[1..]));
    }
  }

  lemma {:induction false} FoldWireLines(items: seq<Item>)
    requires Sendable(items)
    ensures FoldLines(IDLE, WireLines(items))
         == if WithinEventBound(items) then Folded(IDLE, Delivered(items)) else TooLong
  {
    hide Encode, EventLine, DataLine, LegalName;
    if items != [] {
      var item, rest := items[0], items[1..];
      FoldWireLines(rest);
      BoundSplits(items);
      if item.Heartbeat? { FoldHeartbeat(); } else { EncodableName(item.event); FoldEvent(item.event); }
      FoldAppend(IDLE, ItemLines(item), WireLines(rest));
    }
  }

  lemma EncodableName(e: ServerSentEvent)
    requires Encode(e).Ok?
    ensures LegalName(e.name)
  {
  }

  lemma BoundSplits(items: seq<Item>)
    requires items != []
    ensures WithinEventBound(items) <==> ItemFits(items[0]) && WithinEventBound(items[1..])
  {
    assert forall i :: 0 <= i < |items[1..]| ==> items[1..][i] == items[i + 1];
    if ItemFits(items[0]) && WithinEventBound(items[1..]) {
      forall i | 0 <= i < |items| && items[i].Event?
        ensures |items[i].event.payload| + 1 <= MAX_EVENT_CHARS
      {
        if i > 0 { assert items[i] == items[1..][i - 1]; }
      }
    }
  }

  // ----- the round trip -----

  lemma WireState(items: seq<Item>)
    requires Sendable(items)
    ensures EventsFit(Wire(items)) <==> WithinEventBound(items)
    ensures EventsFit(Wire(items)) ==> StreamAfter(Wire(items)) == Stream(IDLE, "", Delivered(items))
  {
    WireIsLines(items);
    FoldWireLines(items);
  }

  lemma {:induction false} WireHasNoReturn(items: seq<Item>)
    requires Sendable(items)
    ensures '\r' !in Wire(items)
  {
    if items != [] {
      WireHasNoReturn(items[1..]);
      if items[0].Event? { EventIsPlain(items[0].event); }
    }
  }

  lemma {:induction false} WireLinesFit(items: seq<Item>, i: nat)
    requires Sendable(items) && WithinLineBound(items) && i < |WireLines(items)|
    ensures |WireLines(items)[i]| <= MAX_LINE_CHARS
  {
    var first := ItemLines(items[0]);
    if i < |first| {
      if items[0].Event? { EncodableName(items[0].event); }
    } else {
      assert forall j :: 0 <= j < |items[1..]| ==> items[1..][j] == items[j + 1];
      WireLinesFit(items[1..], i - |first|);
    }
  }

  /**
   The concatenation of any encoded events and heartbeats, cut anywhere, parses
   to exactly the events' names and payloads in order, with nothing pending.
   */
  lemma RoundTrip(items: seq<Item>, chunks: seq<string>)
    requires Sendable(items) && WithinLineBound(items) && Concat(chunks) == Wire(items)
    ensures Feed(FRESH, chunks) == Ok(Stream(IDLE, "", Delivered(items)))
  {
    assert WithinEventBound(items);
    WireState(items);
    WireIsLines(items);
    WireHasNoReturn(items);
    forall i | 0 <= i < |Lines(Wire(items))|
      ensures |Lines(Wire(items))[i]| <= MAX_LINE_CHARS
    {
      WireLinesFit(items, i);
    }
    ShortLinesNeverTrip(Wire(items), chunks);
  }

  lemma LongDataLine(e: ServerSentEvent, rest: string) returns (k: nat)
    requires Encode(e).Ok? && |DataLine(e)| > MAX_LINE_CHARS
    ensures k <= |Encode(e).value + rest| && |Tail((Encode(e).value + rest)[..k])| > MAX_LINE_CHARS
  {
    EventIsPlain(e);
    var upTo := EventLine(e) + "\n" + DataLine(e);
    k := |upTo|;
    assert Encode(e).value + rest == upTo + ("\n\n" + rest);
    assert (Encode(e).value + rest)[..k] == upTo;
    hide Encode, EventLine, DataLine, Lines;
    FirstLine(EventLine(e), DataLine(e));
    PlainHasNoBreak(DataLine(e), 0);
  }

  lemma {:induction false} LongLineTrips(items: seq<Item>) returns (k: nat)
    requires Sendable(items) && !WithinLineBound(items)
    ensures k <= |Wire(items)| && |Tail(Wire(items)[..k])| > MAX_LINE_CHARS
  {
    var item, rest := items[0], Wire(items[1..]);
    if item.Event? && |DataLine(item.event)| > MAX_LINE_CHARS {
      k := LongDataLine(item.event, rest);
    } else {
      var j := LongLineTrips(items[1..]);
      k := |WireOf(item)| + j;
      assert Wire(items)[..k] == WireOf(item) + rest[..j];
      WireItemLines(item, rest[..j]);
    }
  }

  /**
   Exactly when every `data:` line is within the line bound does the wire text
   survive every cut; read in one piece it needs only the event bound.
   */
  lemma DeliveryConditions(items: seq<Item>)
    requires Sendable(items)
    ensures EveryCutSucceeds(Wire(items)) <==> WithinLineBound(items)
    ensures Feed(FRESH, [Wire(items)]).Ok? <==> WithinEventBound(items)
  {
    hide FoldLines, Lines, StreamAfter, Feed, Encode;
    var text := Wire(items);
    WireState(items);
    WireIsLines(items);
    EveryCutSucceedsIff(text);
    if WithinLineBound(items) {
      forall chunks | Concat(chunks) == text
        ensures Feed(FRESH, chunks).Ok?
      {
        RoundTrip(items, chunks);
      }
    } else {
      var k := LongLineTrips(items);
    }
    SinglePush(text);
  }
}
