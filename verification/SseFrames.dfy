/**
 The text one event becomes on the wire, and the client that reads such text back.

 The writing side is `eventFrame` of the daemon. The reading side is the event stream
 interpretation of section 9.2.6 of the WHATWG HTML Living Standard, written as a machine that is
 fed one character at a time, so that a connection cut anywhere is simply a shorter feed.
 */
module SseFrames {
  import opened DecimalText

  datatype Event = Event(sequence: nat, kind: string, payload: string)

  // ------------------------------------------------------------------ frames

  const COMMENT: string := ":ok\n\n"

  function FieldText(name: string, value: string): string {
    name + ": " + value + "\n"
  }

  function EventFrame(e: Event): string {
    FieldText("id", Decimal(e.sequence)) + FieldText("event", e.kind) + FieldText("data", e.payload) + "\n"
  }

  /** No line break, which JSON text and the fixed event type names both satisfy. */
  predicate OneLine(s: string) {
    '\n' !in s && '\r' !in s
  }

  predicate Framable(e: Event) {
    OneLine(e.kind) && e.kind != "" && OneLine(e.payload)
  }

  function Concat(texts: seq<string>): string {
    if texts == [] then "" else Concat(texts[..|texts| - 1]) + texts[|texts| - 1]
  }

  function Frames(events: seq<Event>): seq<string> {
    seq(|events|, i requires 0 <= i < |events| => EventFrame(events[i]))
  }

  // ------------------------------------------------------------------ the client

  datatype Message = Message(id: string, kind: string, data: string)

  datatype Client = Client(
    line: string, skipLf: bool, data: string, kind: string, lastId: string, out: seq<Message>)

  const FRESH: Client := Client("", false, "", "", "", [])

  /** Between two events: no partial line and nothing buffered for the next event. */
  predicate Idle(c: Client) {
    c.line == "" && !c.skipLf && c.data == "" && c.kind == ""
  }

  function IndexOf(s: string, c: char): (i: nat)
    ensures i <= |s|
    ensures i < |s| ==> s[i] == c
    ensures c !in s[..i]
  {
    if s == "" || s[0] == c then 0 else
      var rest := IndexOf(s[1..], c);
      assert s[..1 + rest] == [s[0]] + s[1..][..rest];
      1 + rest
  }

  function Dispatch(c: Client): Client {
    if c.data == "" then c.(kind := "") else
      var message := Message(c.lastId, if c.kind == "" then "message" else c.kind, c.data[..|c.data| - 1]);
      c.(data := "", kind := "", out := c.out + [message])
  }

  function Field(c: Client, name: string, value: string): Client {
    if name == "event" then c.(kind := value)
    else if name == "data" then c.(data := c.data + value + "\n")
    else if name == "id" then (if '\0' in value then c else c.(lastId := value))
    else c
  }

  function ProcessLine(c: Client, line: string): Client {
    if line == "" then Dispatch(c)
    else if line[0] == ':' then c
    else
      var colon := IndexOf(line, ':');
      if colon == |line| then Field(c, line, "")
      else
        var rest := line[colon + 1..];
        Field(c, line[..colon], if rest != "" && rest[0] == ' ' then rest[1..] else rest)
  }

  function EndLine(c: Client): Client {
    ProcessLine(c, c.line).(line := "", skipLf := false)
  }

  function FeedChar(c: Client, ch: char): Client {
    if ch == '\n' then (if c.skipLf then c.(skipLf := false) else EndLine(c))
    else if ch == '\r' then EndLine(c).(skipLf := true)
    else c.(line := c.line + [ch], skipLf := false)
  }

  function Feed(c: Client, text: string): Client {
    if text == "" then c else FeedChar(Feed(c, text[..|text| - 1]), text[|text| - 1])
  }

  lemma {:induction false} FeedConcat(c: Client, a: string, b: string)
    ensures Feed(c, a + b) == Feed(Feed(c, a), b)
  {
    if b == "" {
      assert a + b == a;
    } else {
      assert (a + b)[..|a + b| - 1] == a + b[..|b| - 1];
      FeedConcat(c, a, b[..|b| - 1]);
    }
  }

  /** Nothing a client has dispatched is ever taken back. */
  lemma {:induction false} FeedOnlyAdds(c: Client, text: string)
    ensures c.out <= Feed(c, text).out
  {
    if text != "" {
      FeedOnlyAdds(c, text[..|text| - 1]);
      CharOnlyAdds(Feed(c, text[..|text| - 1]), text[|text| - 1]);
    }
  }

  lemma CharOnlyAdds(c: Client, ch: char)
    ensures c.out <= FeedChar(c, ch).out
  {
  }

  lemma {:induction false} FeedOneLine(c: Client, s: string)
    requires OneLine(s) && !c.skipLf
    ensures Feed(c, s) == c.(line := c.line + s)
  {
    if s == "" {
      assert c.line + s == c.line;
    } else {
      FeedOneLine(c, s[..|s| - 1]);
      assert c.line + s == c.line + s[..|s| - 1] + [s[|s| - 1]];
    }
  }

  lemma FeedLine(c: Client, s: string)
    requires OneLine(s) && c.line == "" && !c.skipLf
    ensures Feed(c, s + "\n") == ProcessLine(c, s).(line := "", skipLf := false)
  {
    FeedConcat(c, s, "\n");
    FeedOneLine(c, s);
    assert c.line + s == s;
    var mid := c.(line := s);
    assert Feed(mid, "\n") == FeedChar(Feed(mid, ""), '\n');
    ProcessLineIgnoresBuffer(c, s);
  }

  lemma ProcessLineIgnoresBuffer(c: Client, s: string)
    ensures ProcessLine(c.(line := s), s).(line := "") == ProcessLine(c, s).(line := "")
  {
  }

  /** A line `name: value` is read back as exactly that field. */
  lemma ProcessField(c: Client, name: string, value: string)
    requires name != "" && ':' !in name
    ensures ProcessLine(c, name + ": " + value) == Field(c, name, value)
  {
    var line := name + ": " + value;
    var colon := IndexOf(line, ':');
    assert line[|name|] == ':';
    assert forall i :: 0 <= i < |name| ==> line[i] == name[i];
    assert colon >= |name|;
    assert colon == |name|;
    assert line[..colon] == name;
    assert line[colon + 1..] == " " + value;
    assert (" " + value)[1..] == value;
  }

  function Received(e: Event): Message {
    Message(Decimal(e.sequence), e.kind, e.payload)
  }

  lemma FeedField(c: Client, name: string, value: string)
    requires c.line == "" && !c.skipLf
    requires name != "" && ':' !in name && OneLine(name) && OneLine(value)
    ensures Feed(c, FieldText(name, value)) == Field(c, name, value)
  {
    FeedLine(c, name + ": " + value);
    ProcessField(c, name, value);
  }

  /** One frame, read from an idle client, delivers exactly its event and leaves the client idle. */
  lemma FeedFrame(c: Client, e: Event)
    requires Idle(c) && Framable(e)
    ensures Feed(c, EventFrame(e)) == c.(lastId := Decimal(e.sequence), out := c.out + [Received(e)])
  {
    var id, kind, data := FieldText("id", Decimal(e.sequence)), FieldText("event", e.kind), FieldText("data", e.payload);
    FeedConcat(c, id + kind + data, "\n");
    FeedFields(c, id, kind, data, e);
    FeedBlank(Feed(c, id + kind + data), e.payload);
  }

  lemma FeedFields(c: Client, id: string, kind: string, data: string, e: Event)
    requires Idle(c) && Framable(e)
    requires id == FieldText("id", Decimal(e.sequence)) && kind == FieldText("event", e.kind) && data == FieldText("data", e.payload)
    ensures Feed(c, id + kind + data) == c.(lastId := Decimal(e.sequence), kind := e.kind, data := "" + e.payload + "\n")
  {
    FeedConcat(c, id + kind, data);
    FeedConcat(c, id, kind);
    FeedId(c, e.sequence);
    FeedKind(Feed(c, id), e.kind);
    FeedData(Feed(Feed(c, id), kind), e.payload);
  }

  lemma FeedId(c: Client, sequence: nat)
    requires c.line == "" && !c.skipLf
    ensures Feed(c, FieldText("id", Decimal(sequence))) == c.(lastId := Decimal(sequence))
  {
    DecimalIsPlain(sequence);
    FeedField(c, "id", Decimal(sequence));
  }

  lemma DecimalIsPlain(n: nat)
    ensures OneLine(Decimal(n)) && '\0' !in Decimal(n)
  {
    var s := Decimal(n);
    assert forall i :: 0 <= i < |s| ==> '0' <= s[i] <= '9';
  }

  lemma FeedKind(c: Client, kind: string)
    requires c.line == "" && !c.skipLf && OneLine(kind)
    ensures Feed(c, FieldText("event", kind)) == c.(kind := kind)
  {
    FeedField(c, "event", kind);
  }

  lemma FeedData(c: Client, payload: string)
    requires c.line == "" && !c.skipLf && OneLine(payload)
    ensures Feed(c, FieldText("data", payload)) == c.(data := c.data + payload + "\n")
  {
    FeedField(c, "data", payload);
  }

  lemma FeedBlank(c: Client, payload: string)
    requires c.line == "" && !c.skipLf && c.data == "" + payload + "\n" && c.kind != ""
    ensures Feed(c, "\n") == c.(data := "", kind := "", out := c.out + [Message(c.lastId, c.kind, payload)])
  {
    assert "" + "\n" == "\n";
    FeedLine(c, "");
    assert c.data[..|c.data| - 1] == payload;
  }

  function ReceivedAll(events: seq<Event>): seq<Message> {
    seq(|events|, i requires 0 <= i < |events| => Received(events[i]))
  }

  ghost predicate Delivers(c: Client, text: string, events: seq<Event>) {
    Idle(Feed(c, text)) && Feed(c, text).out == c.out + ReceivedAll(events)
  }

  lemma FeedOneMore(c: Client, text: string, events: seq<Event>, last: Event)
    requires Delivers(c, text, events) && Framable(last)
    ensures Delivers(c, text + EventFrame(last), events + [last])
  {
    FeedConcat(c, text, EventFrame(last));
    FeedFrame(Feed(c, text), last);
    assert ReceivedAll(events + [last]) == ReceivedAll(events) + [Received(last)];
  }

  lemma {:induction false} FeedFrames(c: Client, events: seq<Event>)
    requires Idle(c) && forall e :: e in events ==> Framable(e)
    ensures Delivers(c, Concat(Frames(events)), events)
  {
    if events == [] {
      assert c.out + ReceivedAll(events) == c.out;
    } else {
      var init, last := events[..|events| - 1], events[|events| - 1];
      FeedFrames(c, init);
      FeedOneMore(c, Concat(Frames(init)), init, last);
      assert events == init + [last];
      ConcatFrames(init, last);
    }
  }

  lemma ConcatFrames(init: seq<Event>, last: Event)
    ensures Concat(Frames(init + [last])) == Concat(Frames(init)) + EventFrame(last)
  {
    var all := Frames(init + [last]);
    assert all[..|all| - 1] == Frames(init);
  }

  /** The opening comment is invisible to an idle client. */
  lemma FeedComment(c: Client)
    requires Idle(c)
    ensures Feed(c, COMMENT) == c
  {
    assert COMMENT == (":ok" + "\n") + ("" + "\n");
    FeedConcat(c, ":ok" + "\n", "" + "\n");
    FeedLine(c, ":ok");
    FeedLine(c, "");
  }

  /**
   The framing round trip: the opening comment and any number of frames are read back as exactly
   the framed events, in order.
   */
  lemma StreamRoundTrip(events: seq<Event>)
    requires forall e :: e in events ==> Framable(e)
    ensures Feed(FRESH, COMMENT + Concat(Frames(events))).out == ReceivedAll(events)
  {
    FeedConcat(FRESH, COMMENT, Concat(Frames(events)));
    FeedComment(FRESH);
    FeedFrames(FRESH, events);
    assert FRESH.out + ReceivedAll(events) == ReceivedAll(events);
  }

  /** Whatever part of a stream has arrived, the client has dispatched a prefix of the events. */
  lemma CutStreamIsPrefix(events: seq<Event>, cut: nat)
    requires forall e :: e in events ==> Framable(e)
    requires cut <= |COMMENT + Concat(Frames(events))|
    ensures Feed(FRESH, (COMMENT + Concat(Frames(events)))[..cut]).out <= ReceivedAll(events)
  {
    var text := COMMENT + Concat(Frames(events));
    assert text == text[..cut] + text[cut..];
    FeedConcat(FRESH, text[..cut], text[cut..]);
    FeedOnlyAdds(Feed(FRESH, text[..cut]), text[cut..]);
    StreamRoundTrip(events);
  }
}
