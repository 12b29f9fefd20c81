/** The text of an event stream: how the server prints events and how the client reads them back. */
module EventStream {
  import opened Basics
  import opened Text
  import TaskEvents

  type Event = TaskEvents.Event

  /** What the client reads: the number of the id line (the value of any other text is left open),
      the event type and the text handed to the JSON parser. */
  datatype EventId = Number(n: nat) | NotDecimal(text: string)

  datatype Parsed = Parsed(id: EventId, kind: string, payload: string)

  // ----- decimal numbers

  function Digit(d: nat): char
    requires d < 10
  {
    (d + '0' as int) as char
  }

  function Decimal(n: nat): (s: string)
    ensures s != "" && forall i :: 0 <= i < |s| ==> '0' <= s[i] <= '9'
    ensures if n == 0 then s == "0" else s[0] != '0'
  {
    if n < 10 then [Digit(n)] else Decimal(n / 10) + [Digit(n % 10)]
  }

  predicate IsDecimal(s: string) {
    s != "" && forall i :: 0 <= i < |s| ==> '0' <= s[i] <= '9'
  }

  function DecimalValue(s: string): nat
    requires forall i :: 0 <= i < |s| ==> '0' <= s[i] <= '9'
  {
    if s == "" then 0 else DecimalValue(s[..|s| - 1]) * 10 + (s[|s| - 1] as int - '0' as int)
  }

  lemma {:induction false} DecimalRoundTrip(n: nat)
    ensures DecimalValue(Decimal(n)) == n
    decreases n
  {
    if n < 10 {
      assert Decimal(n)[..0] == "";
    } else {
      DecimalRoundTrip(n / 10);
      var s := Decimal(n);
      assert s[..|s| - 1] == Decimal(n / 10);
    }
  }

  // ----- printing

  function IdLine(e: Event): string { "id: " + Decimal(e.id) }
  function EventLine(e: Event): string { "event: " + e.kind }
  function DataLine(e: Event): string { "data: " + e.payload }

  function Block(e: Event): string {
    IdLine(e) + "\n" + EventLine(e) + "\n" + DataLine(e)
  }

  function Format(events: seq<Event>): string {
    if events == [] then "" else Block(events[0]) + "\n\n" + Format(events[1..])
  }

  // ----- parsing

  /** The characters that JavaScript's trim removes. */
  predicate IsSpace(c: char) {
    var n := c as int;
    || 0x09 <= n <= 0x0D || n == 0x20 || n == 0xA0 || n == 0x1680 || 0x2000 <= n <= 0x200A
    || n == 0x2028 || n == 0x2029 || n == 0x202F || n == 0x205F || n == 0x3000 || n == 0xFEFF
  }

  function FindLine(lines: seq<string>, prefix: string): (r: Option<string>)
    ensures r.Some? ==> r.value in lines && prefix <= r.value
  {
    if lines == [] then None
    else if prefix <= lines[0] then Some(lines[0])
    else FindLine(lines[1..], prefix)
  }

  function ToEventId(text: string): EventId {
    if IsDecimal(text) then Number(DecimalValue(text)) else NotDecimal(text)
  }

  function ParseLines(lines: seq<string>): Parsed {
    var idLine := FindLine(lines, "id: ");
    var eventLine := FindLine(lines, "event: ");
    var dataLine := FindLine(lines, "data: ");
    Parsed(
      if idLine.Some? then ToEventId(idLine.value[4..]) else Number(0),
      if eventLine.Some? then eventLine.value[7..] else "status",
      if dataLine.Some? then dataLine.value[6..] else "{}")
  }

  function ParseBlock(block: string): Parsed {
    ParseLines(Split(block, "\n"))
  }

  function ParseBlocks(blocks: seq<string>): seq<Parsed> {
    if blocks == [] then []
    else
      var block := Strip(blocks[0], IsSpace);
      (if block == "" then [] else [ParseBlock(block)]) + ParseBlocks(blocks[1..])
  }

  function Parse(text: string): seq<Parsed> {
    ParseBlocks(Split(text, "\n\n"))
  }

  // ----- round trip

  /** JSON text of an object: one line from brace to brace. */
  predicate IsObjectText(payload: string) {
    |payload| >= 2 && payload[0] == '{' && payload[|payload| - 1] == '}' && '\n' !in payload
  }

  function Read(e: Event): Parsed {
    Parsed(Number(e.id), e.kind, e.payload)
  }

  function ReadAll(events: seq<Event>): seq<Parsed> {
    seq(|events|, i requires 0 <= i < |events| => Read(events[i]))
  }

  function Lines(e: Event): seq<string> {
    [IdLine(e), EventLine(e), DataLine(e)]
  }

  lemma BlockIsJoin(e: Event)
    ensures Block(e) == Join(Lines(e), "\n")
  {
    var tail := [EventLine(e), DataLine(e)];
    assert Lines(e)[1..] == tail && tail[1..] == [DataLine(e)];
    assert Join(tail, "\n") == EventLine(e) + "\n" + DataLine(e);
  }

  /** Joined lines that are not empty hold no two line breaks in a row and end in none. */
  lemma {:induction false} NoBlankLine(lines: seq<string>)
    requires lines != [] && Without(lines, '\n') && forall i :: 0 <= i < |lines| ==> lines[i] != ""
    ensures var s := Join(lines, "\n");
            && s != "" && s[0] != '\n'
            && forall i :: 0 <= i < |s| && s[i] == '\n' ==> i + 1 < |s| && s[i + 1] != '\n'
    decreases |lines|
  {
    if |lines| > 1 {
      var rest := Join(lines[1..], "\n");
      NoBlankLine(lines[1..]);
      var s := Join(lines, "\n");
      assert s == lines[0] + "\n" + rest;
      forall i | 0 <= i < |s| ensures s[i] == '\n' ==> i + 1 < |s| && s[i + 1] != '\n' {
        if i < |lines[0]| {
          assert s[i] == lines[0][i] && lines[0][i] in lines[0];
        } else if i > |lines[0]| {
          assert s[i] == rest[i - |lines[0]| - 1];
        }
      }
    }
  }

  predicate Printable(e: Event) {
    '\n' !in e.kind && IsObjectText(e.payload)
  }

  lemma LinesAreClean(e: Event)
    requires Printable(e)
    ensures |Lines(e)| == 3 && Without(Lines(e), '\n') && forall i :: 0 <= i < 3 ==> Lines(e)[i] != ""
    ensures Split(Block(e), "\n") == Lines(e)
  {
    assert '\n' !in Decimal(e.id);
    assert Without(Lines(e), '\n');
    BlockIsJoin(e);
    SplitJoin(Lines(e), '\n');
  }

  lemma SplitFormatted(e: Event, rest: string)
    requires Printable(e)
    ensures Split(Block(e) + "\n\n" + rest, "\n\n") == [Block(e)] + Split(rest, "\n\n")
  {
    hide Block, Lines, Join, Split, Printable;
    var b := Block(e);
    LinesAreClean(e);
    BlockIsJoin(e);
    NoBlankLine(Lines(e));
    var s := b + "\n\n" + rest;
    forall j | 0 <= j < |b| ensures !OccursAt(s, j, "\n\n") {
      assert s[j..j + 2][0] == b[j] && s[j..j + 2][1] == s[j + 1];
      assert j + 1 < |b| ==> s[j + 1] == b[j + 1];
    }
    SplitFirst(b, "\n\n", rest);
  }

  /** Line i is the first that starts with the prefix. */
  ghost predicate FirstWith(lines: seq<string>, prefix: string, i: nat) {
    i < |lines| && prefix <= lines[i] && forall j :: 0 <= j < i ==> !(prefix <= lines[j])
  }

  lemma {:induction false} FoundIsFirst(lines: seq<string>, prefix: string)
    ensures match FindLine(lines, prefix)
            case Some(line) => exists i: nat :: FirstWith(lines, prefix, i) && lines[i] == line
            case None => forall i: nat :: !FirstWith(lines, prefix, i)
    decreases |lines|
  {
    if lines != [] && !(prefix <= lines[0]) {
      var rest := lines[1..];
      FoundIsFirst(rest, prefix);
      if i: nat :| FirstWith(rest, prefix, i) {
        assert lines[i + 1] == rest[i];
        assert FirstWith(lines, prefix, i + 1);
      }
      forall i: nat | FirstWith(lines, prefix, i) ensures FirstWith(rest, prefix, i - 1) {
        assert forall j :: 0 <= j < i - 1 ==> rest[j] == lines[j + 1];
      }
    } else if lines != [] {
      assert FirstWith(lines, prefix, 0);
    }
  }

  /** What any block is read as: the first line of each kind counts, and each has its default. */
  lemma ParsedByFirstLines(lines: seq<string>)
    ensures var p := ParseLines(lines);
            && (forall i: nat :: FirstWith(lines, "event: ", i) ==> p.kind == lines[i][7..])
            && ((forall i: nat :: !FirstWith(lines, "event: ", i)) ==> p.kind == "status")
            && (forall i: nat :: FirstWith(lines, "data: ", i) ==> p.payload == lines[i][6..])
            && ((forall i: nat :: !FirstWith(lines, "data: ", i)) ==> p.payload == "{}")
            && (forall i: nat :: FirstWith(lines, "id: ", i) ==> p.id == ToEventId(lines[i][4..]))
            && ((forall i: nat :: !FirstWith(lines, "id: ", i)) ==> p.id == Number(0))
  {
    hide FindLine;
    FoundIsFirst(lines, "event: ");
    FoundIsFirst(lines, "data: ");
    FoundIsFirst(lines, "id: ");
  }

  lemma BlockIsTrimmed(e: Event)
    requires Printable(e)
    ensures Block(e) != "" && Strip(Block(e), IsSpace) == Block(e)
  {
    var b := Block(e);
    assert b[0] == 'i' && b[|b| - 1] == '}';
    StripChangesPadded(b, IsSpace);
  }

  lemma SkipLine(first: string, lines: seq<string>, prefix: string)
    requires prefix != "" && first != "" && first[0] != prefix[0]
    ensures FindLine([first] + lines, prefix) == FindLine(lines, prefix)
  {
    assert ([first] + lines)[1..] == lines;
  }

  lemma TakeLine(text: string, lines: seq<string>, prefix: string)
    ensures FindLine([prefix + text] + lines, prefix) == Some(prefix + text)
  {
    assert ([prefix + text] + lines)[0] == prefix + text;
  }

  lemma LinesAreFound(e: Event)
    ensures FindLine(Lines(e), "id: ") == Some(IdLine(e))
    ensures FindLine(Lines(e), "event: ") == Some(EventLine(e))
    ensures FindLine(Lines(e), "data: ") == Some(DataLine(e))
  {
    var two := [EventLine(e)] + [DataLine(e)];
    assert Lines(e) == [IdLine(e)] + two;
    TakeLine(Decimal(e.id), two, "id: ");
    SkipLine(IdLine(e), two, "event: ");
    TakeLine(e.kind, [DataLine(e)], "event: ");
    SkipLine(IdLine(e), two, "data: ");
    SkipLine(EventLine(e), [DataLine(e)], "data: ");
    TakeLine(e.payload, [], "data: ");
    assert [DataLine(e)] + [] == [DataLine(e)];
  }

  lemma LinesAreRead(e: Event)
    ensures ParseLines(Lines(e)) == Read(e)
  {
    hide FindLine, Decimal, DecimalValue;
    LinesAreFound(e);
    assert IdLine(e)[4..] == Decimal(e.id) && EventLine(e)[7..] == e.kind && DataLine(e)[6..] == e.payload;
    DecimalRoundTrip(e.id);
  }

  /** The first event of a stream is read, and the rest is read as it would be alone. */
  lemma ParseFirst(e: Event, rest: string)
    requires Printable(e)
    ensures Parse(Block(e) + "\n\n" + rest) == [Read(e)] + Parse(rest)
  {
    var blocks := [Block(e)] + Split(rest, "\n\n");
    assert Split(Block(e) + "\n\n" + rest, "\n\n") == blocks by { SplitFormatted(e, rest); }
    assert blocks[1..] == Split(rest, "\n\n");
    BlockIsTrimmed(e);
    assert ParseBlock(Block(e)) == Read(e) by {
      LinesAreClean(e);
      LinesAreRead(e);
    }
  }

  lemma BlockKindHasNoBreak(block: string)
    ensures '\n' !in ParseBlock(block).kind
  {
    hide Split, FindLine, ToEventId;
    var lines := Split(block, "\n");
    SplitParts(block, '\n');
    var found := FindLine(lines, "event: ");
    if found.Some? {
      var i :| 0 <= i < |lines| && lines[i] == found.value;
    }
  }

  lemma {:induction false} ParsedKindsHaveNoBreak(blocks: seq<string>)
    ensures forall i :: 0 <= i < |ParseBlocks(blocks)| ==> '\n' !in ParseBlocks(blocks)[i].kind
    decreases |blocks|
  {
    hide ParseBlock, Strip;
    if blocks != [] {
      ParsedKindsHaveNoBreak(blocks[1..]);
      BlockKindHasNoBreak(Strip(blocks[0], IsSpace));
    }
  }

  lemma NothingIsRead()
    ensures Parse("") == []
  {
    assert Split("", "\n\n") == [""];
    assert Strip("", IsSpace) == "";
    assert [""][1..] == [];
  }

  /** Any reader that takes printed events off the front one by one reads the whole stream. */
  lemma {:induction false} ReadFromFront(parse: string -> seq<Parsed>, events: seq<Event>)
    requires parse("") == []
    requires forall e: Event, rest: string ::
               Printable(e) ==> parse(Block(e) + "\n\n" + rest) == [Read(e)] + parse(rest)
    requires forall i :: 0 <= i < |events| ==> Printable(events[i])
    ensures parse(Format(events)) == ReadAll(events)
    decreases |events|
  {
    if events != [] {
      ReadFromFront(parse, events[1..]);
      assert ReadAll(events) == [Read(events[0])] + ReadAll(events[1..]);
    }
  }

  lemma PrintedIsRead(events: seq<Event>)
    requires forall i :: 0 <= i < |events| ==> Printable(events[i])
    ensures Parse(Format(events)) == ReadAll(events)
  {
    NothingIsRead();
    forall e: Event, rest: string | Printable(e)
      ensures Parse(Block(e) + "\n\n" + rest) == [Read(e)] + Parse(rest)
    {
      ParseFirst(e, rest);
    }
    ReadFromFront(Parse, events);
  }

  /** For payloads that are one-line objects, the stream reads back as printed exactly when no
      event type contains a line break. */
  lemma RoundTripExactly(events: seq<Event>)
    requires forall i :: 0 <= i < |events| ==> IsObjectText(events[i].payload)
    ensures Parse(Format(events)) == ReadAll(events) <==> forall i :: 0 <= i < |events| ==> '\n' !in events[i].kind
  {
    if forall i :: 0 <= i < |events| ==> '\n' !in events[i].kind {
      PrintedIsRead(events);
    } else {
      var i :| 0 <= i < |events| && '\n' in events[i].kind;
      var parsed := Parse(Format(events));
      ParsedKindsHaveNoBreak(Split(Format(events), "\n\n"));
      assert i < |parsed| ==> '\n' !in parsed[i].kind;
    }
  }

  // ----- the protocol over the wire

  /** The reply as the client rebuilds it for the task it asked about. */
  function FromWire(task: string, parsed: seq<Parsed>): seq<Event> {
    seq(|parsed|, i requires 0 <= i < |parsed| =>
      TaskEvents.Event(if parsed[i].id.Number? then parsed[i].id.n else 0, task, parsed[i].kind, parsed[i].payload))
  }

  /** A served reply, printed, parsed and labelled with the task asked for, is the reply itself. */
  lemma WireKeepsReply(log: seq<Event>, task: string, since: nat)
    requires forall i :: 0 <= i < |log| ==> Printable(log[i])
    ensures var reply := TaskEvents.Replay(log, task, since);
            FromWire(task, Parse(Format(reply))) == reply
  {
    hide Parse, Format, Printable;
    var reply := TaskEvents.Replay(log, task, since);
    forall i | 0 <= i < |reply| ensures reply[i].taskId == task && Printable(reply[i]) {
      ReplayedFromLog(log, task, since, i);
    }
    PrintedIsRead(reply);
  }

  lemma {:induction false} ReplayedFromLog(log: seq<Event>, task: string, since: nat, i: nat)
    requires i < |TaskEvents.Replay(log, task, since)|
    ensures TaskEvents.Replay(log, task, since)[i] in log
    ensures TaskEvents.Replay(log, task, since)[i].taskId == task
    decreases |log|
  {
    var n := |log| - 1;
    if i < |TaskEvents.Replay(log[..n], task, since)| {
      ReplayedFromLog(log[..n], task, since, i);
    }
  }
}
