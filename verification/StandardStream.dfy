/** The reader that section 9.2 of the WHATWG HTML Living Standard prescribes for event streams, and what
    it makes of the streams the server prints. Texts are taken to hold no carriage return. */
module StandardStream {
  import opened Basics
  import opened Text
  import EventStream

  type Event = EventStream.Event

  /** The buffers of the reader. */
  datatype Pending = Pending(id: string, kind: string, data: string)

  datatype Dispatched = Dispatched(id: string, kind: string, data: string)

  const START := Pending("", "", "")

  /** The name and the value of a field line; one space after the colon is dropped. */
  function Field(line: string): (string, string) {
    match FindFrom(line, ":", 0)
    case None => (line, "")
    case Some(i) =>
      var value := line[i + 1..];
      (line[..i], if value != "" && value[0] == ' ' then value[1..] else value)
  }

  /** One line: an empty one dispatches what is pending, a comment is skipped, a field fills its buffer. */
  function Process(p: Pending, line: string): (Pending, seq<Dispatched>) {
    if line == "" then
      (Pending(p.id, "", ""),
       if p.data == "" then []
       else [Dispatched(p.id, if p.kind == "" then "message" else p.kind, p.data[..|p.data| - 1])])
    else if line[0] == ':' then (p, [])
    else
      var (field, value) := Field(line);
      if field == "event" then (p.(kind := value), [])
      else if field == "data" then (p.(data := p.data + value + "\n"), [])
      else if field == "id" && '\0' !in value then (p.(id := value), [])
      else (p, [])
  }

  function Interpret(p: Pending, lines: seq<string>): seq<Dispatched>
    decreases |lines|
  {
    if lines == [] then []
    else
      var (next, out) := Process(p, lines[0]);
      out + Interpret(next, lines[1..])
  }

  /** Lines end with a line break; what follows the last one is discarded. */
  function Read(text: string): seq<Dispatched> {
    var parts := Split(text, "\n");
    Interpret(START, parts[..|parts| - 1])
  }

  // ----- printed events

  function Expected(e: Event): Dispatched {
    Dispatched(EventStream.Decimal(e.id), if e.kind == "" then "message" else e.kind, e.payload)
  }

  function ExpectedAll(events: seq<Event>): seq<Dispatched> {
    seq(|events|, i requires 0 <= i < |events| => Expected(events[i]))
  }

  lemma FieldLine(name: string, value: string)
    requires ':' !in name
    ensures Field(name + ": " + value) == (name, value)
  {
    var line := name + ": " + value;
    var n := |name|;
    assert OccursAt(line, n, ":");
    forall j | 0 <= j < n ensures !OccursAt(line, j, ":") {
      assert line[j] == name[j] && name[j] in name;
      NotAt(line, j, ':');
    }
    assert FindFrom(line, ":", 0) == Some(n);
    assert line[n + 1..] == " " + value && line[..n] == name && (" " + value)[1..] == value;
  }

  lemma FieldLines(e: Event)
    ensures Field(EventStream.IdLine(e)) == ("id", EventStream.Decimal(e.id))
    ensures Field(EventStream.EventLine(e)) == ("event", e.kind)
    ensures Field(EventStream.DataLine(e)) == ("data", e.payload)
  {
    hide Field;
    FieldLine("id", EventStream.Decimal(e.id));
    FieldLine("event", e.kind);
    FieldLine("data", e.payload);
    assert "id" + ": " == "id: " && "event" + ": " == "event: " && "data" + ": " == "data: ";
  }

  function LinesOf(e: Event): seq<string> {
    [EventStream.IdLine(e), EventStream.EventLine(e), EventStream.DataLine(e), ""]
  }

  /** The four lines of an event dispatch it and leave the buffers as before. */
  lemma EventIsDispatched(e: Event, id: string, rest: seq<string>)
    ensures Interpret(Pending(id, "", ""), LinesOf(e) + rest)
            == [Expected(e)] + Interpret(Pending(EventStream.Decimal(e.id), "", ""), rest)
  {
    hide Field, EventStream.Decimal;
    FieldLines(e);
    var number := EventStream.Decimal(e.id);
    assert '\0' !in number;
    var lines := LinesOf(e) + rest;
    var p0 := Pending(id, "", "");
    var p1, p2, p3 := Pending(number, "", ""), Pending(number, e.kind, ""), Pending(number, e.kind, e.payload + "\n");
    InterpretStep(p0, lines[0], lines[1..], lines);
    InterpretStep(p1, lines[1], lines[2..], lines[1..]);
    InterpretStep(p2, lines[2], lines[3..], lines[2..]);
    InterpretStep(p3, lines[3], rest, lines[3..]);
    assert "" + e.payload + "\n" == e.payload + "\n";
    assert Process(p0, lines[0]) == (p1, []);
    assert Process(p1, lines[1]) == (p2, []);
    assert Process(p2, lines[2]) == (p3, []);
    assert (e.payload + "\n")[..|e.payload|] == e.payload;
    assert Process(p3, lines[3]) == (Pending(number, "", ""), [Expected(e)]);
  }

  lemma InterpretStep(p: Pending, line: string, rest: seq<string>, lines: seq<string>)
    requires lines == [line] + rest
    ensures Interpret(p, lines) == Process(p, line).1 + Interpret(Process(p, line).0, rest)
  {
    assert lines[0] == line && lines[1..] == rest;
  }

  lemma SplitLine(line: string, rest: string)
    requires '\n' !in line
    ensures Split(line + "\n" + rest, "\n") == [line] + Split(rest, "\n")
  {
    var s := line + "\n" + rest;
    forall j | 0 <= j < |line| ensures !OccursAt(s, j, "\n") {
      assert s[j] == line[j] && line[j] in line;
      NotAt(s, j, '\n');
    }
    SplitFirst(line, "\n", rest);
  }

  lemma SplitEvent(e: Event, rest: string)
    requires EventStream.Printable(e)
    ensures Split(EventStream.Block(e) + "\n\n" + rest, "\n") == LinesOf(e) + Split(rest, "\n")
  {
    hide Split;
    var a, b, c := EventStream.IdLine(e), EventStream.EventLine(e), EventStream.DataLine(e);
    assert '\n' !in a && '\n' !in b && '\n' !in c;
    var r4 := rest;
    var r3 := "" + "\n" + r4;
    var r2 := c + "\n" + r3;
    var r1 := b + "\n" + r2;
    assert EventStream.Block(e) + "\n\n" + rest == a + "\n" + r1;
    SplitLine(a, r1);
    SplitLine(b, r2);
    SplitLine(c, r3);
    SplitLine("", r4);
    var tail := Split(rest, "\n");
    assert [a] + ([b] + ([c] + ([""] + tail))) == LinesOf(e) + tail;
  }

  lemma {:induction false} StreamIsDispatched(events: seq<Event>, id: string)
    requires forall i :: 0 <= i < |events| ==> EventStream.Printable(events[i])
    ensures var parts := Split(EventStream.Format(events), "\n");
            Interpret(Pending(id, "", ""), parts[..|parts| - 1]) == ExpectedAll(events)
    decreases |events|
  {
    hide EventStream.Printable, Interpret;
    if events == [] {
      NothingIsDispatched(id);
    } else {
      var e := events[0];
      var rest := EventStream.Format(events[1..]);
      SplitEvent(e, rest);
      var parts := Split(rest, "\n");
      var front := parts[..|parts| - 1];
      assert (LinesOf(e) + parts)[..4 + |parts| - 1] == LinesOf(e) + front;
      EventIsDispatched(e, id, front);
      StreamIsDispatched(events[1..], EventStream.Decimal(e.id));
      assert ExpectedAll(events) == [Expected(e)] + ExpectedAll(events[1..]);
    }
  }

  lemma NothingIsDispatched(id: string)
    ensures Split("", "\n") == [""] && Interpret(Pending(id, "", ""), [""][..0]) == []
  {
  }

  /** A reader that follows the standard gets from a printed stream every event in order: its id as last
      event id, its type (the default one for an empty type) and its payload. */
  lemma StandardReaderAgrees(events: seq<Event>)
    requires forall i :: 0 <= i < |events| ==> EventStream.Printable(events[i])
    ensures Read(EventStream.Format(events)) == ExpectedAll(events)
  {
    StreamIsDispatched(events, "");
  }
}
