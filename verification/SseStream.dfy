/** Server-sent events: the frames the server writes and what a conforming client reads from them
    (WHATWG HTML Living Standard, sections 9.2.5 and 9.2.6). Streams are sequences of characters. */
module SseStream {
  import opened Prelude

  // ---------------------------------------------------------------------
  // The client: the standard's event stream interpretation
  // ---------------------------------------------------------------------

  datatype Message = Message(name: string, data: string)

  /** The data buffer and the event type buffer. */
  datatype Buffers = Buffers(data: string, kind: string)

  const CLEAR: Buffers := Buffers("", "")

  predicate EndsLine(c: char) { c == '\n' || c == '\r' }

  /** The first line without its end, and what follows; a CR LF pair is one line end. */
  function NextLine(s: string): (r: Option<(string, string)>)
    ensures r.Some? ==> |r.value.1| < |s|
  {
    if s == [] then None
    else if s[0] == '\n' then Some(("", s[1..]))
    else if s[0] == '\r' then Some(("", if |s| > 1 && s[1] == '\n' then s[2..] else s[1..]))
    else
      var r := NextLine(s[1..]);
      if r.None? then None else Some(([s[0]] + r.value.0, r.value.1))
  }

  function ColonAt(line: string): (n: nat)
    ensures n <= |line|
  {
    if line == [] || line[0] == ':' then 0 else 1 + ColonAt(line[1..])
  }

  function DropSpace(v: string): string { if v != [] && v[0] == ' ' then v[1..] else v }

  /** A line that is not empty: a comment, a field with a value, or a field alone. The id and
      retry fields touch neither name nor data. */
  function Field(b: Buffers, line: string): Buffers {
    var n := ColonAt(line);
    var name, value := line[..n], if n < |line| then DropSpace(line[n + 1..]) else "";
    if name == "event" then b.(kind := value)
    else if name == "data" then b.(data := b.data + value + "\n")
    else b
  }

  /** The empty line: with no data nothing is dispatched; one trailing LF is taken off. */
  function Dispatch(b: Buffers): seq<Message> {
    if b.data == "" then []
    else
      var last := |b.data| - 1;
      [Message(if b.kind == "" then "message" else b.kind, if b.data[last] == '\n' then b.data[..last] else b.data)]
  }

  /** Line after line; an event cut off by the end of the stream is discarded. */
  function Interpret(s: string, b: Buffers): seq<Message>
    decreases |s|
  {
    var next := NextLine(s);
    if next.None? then []
    else
      var (line, rest) := next.value;
      if line == "" then Dispatch(b) + Interpret(rest, CLEAR) else Interpret(rest, Field(b, line))
  }

  function Parse(s: string): seq<Message> {
    Interpret(if s != [] && s[0] == '\U{FEFF}' then s[1..] else s, CLEAR)
  }

  // ---------------------------------------------------------------------
  // The server: frames
  // ---------------------------------------------------------------------

  /** str.split("\n"). */
  function SplitLines(s: string): (r: seq<string>)
    ensures r != []
  {
    if s == [] then [""]
    else
      var rest := SplitLines(s[1..]);
      if s[0] == '\n' then [""] + rest else [[s[0]] + rest[0]] + rest[1..]
  }

  /** "\n".join(f"data: {line}" for line in lines). */
  function DataLines(lines: seq<string>): string {
    if lines == [] then ""
    else if |lines| == 1 then "data: " + lines[0]
    else "data: " + lines[0] + "\n" + DataLines(lines[1..])
  }

  function Frame(name: string, text: string): string {
    "event: " + name + "\n" + DataLines(SplitLines(text)) + "\n\n"
  }

  const PING: string := "event: ping\ndata: \n\n"

  // ---------------------------------------------------------------------
  // A frame read back
  // ---------------------------------------------------------------------

  predicate OneLine(s: string) { forall i :: 0 <= i < |s| ==> !EndsLine(s[i]) }

  lemma {:induction false} LineRead(line: string, rest: string)
    requires OneLine(line)
    ensures NextLine(line + "\n" + rest) == Some((line, rest))
  {
    var s := line + "\n" + rest;
    if line == [] {
      assert s[1..] == rest;
    } else {
      assert s[1..] == line[1..] + "\n" + rest;
      LineRead(line[1..], rest);
      assert line == [line[0]] + line[1..];
    }
  }

  lemma InterpretLine(line: string, rest: string, b: Buffers)
    requires OneLine(line)
    ensures Interpret(line + "\n" + rest, b)
         == if line == "" then Dispatch(b) + Interpret(rest, CLEAR) else Interpret(rest, Field(b, line))
  {
    LineRead(line, rest);
  }

  lemma EventField(b: Buffers, name: string)
    ensures Field(b, "event: " + name) == b.(kind := name)
  {
    var line := "event: " + name;
    ColonAfter("event", " " + name);
    assert line == "event" + ":" + (" " + name);
    assert line[..5] == "event" && line[6..] == " " + name && (" " + name)[1..] == name;
  }

  lemma DataField(b: Buffers, text: string)
    ensures Field(b, "data: " + text) == b.(data := b.data + text + "\n")
  {
    var line := "data: " + text;
    ColonAfter("data", " " + text);
    assert line == "data" + ":" + (" " + text);
    assert line[..4] == "data" && line[5..] == " " + text && (" " + text)[1..] == text;
  }

  lemma {:induction false} ColonAfter(name: string, rest: string)
    requires ':' !in name
    ensures ColonAt(name + ":" + rest) == |name|
  {
    if name != [] {
      assert (name + ":" + rest)[1..] == name[1..] + ":" + rest;
      ColonAfter(name[1..], rest);
    }
  }

  /** What a run of data lines leaves in the data buffer. */
  function Fed(lines: seq<string>): string {
    if lines == [] then "" else lines[0] + "\n" + Fed(lines[1..])
  }

  lemma DataLineRead(line: string, more: string, b: Buffers)
    requires OneLine(line)
    ensures Interpret("data: " + line + "\n" + more, b) == Interpret(more, b.(data := b.data + (line + "\n")))
  {
    DataField(b, line);
    InterpretLine("data: " + line, more, b);
    assert b.data + line + "\n" == b.data + (line + "\n");
  }

  function DataBlock(lines: seq<string>): string {
    if lines == [] then "" else "data: " + lines[0] + "\n" + DataBlock(lines[1..])
  }

  lemma {:induction false} JoinedIsBlock(lines: seq<string>)
    requires lines != []
    ensures DataLines(lines) + "\n" == DataBlock(lines)
  {
    if |lines| > 1 {
      JoinedIsBlock(lines[1..]);
    } else {
      assert DataBlock(lines[1..]) == "";
    }
  }

  lemma BlockOpens(lines: seq<string>, rest: string)
    requires lines != []
    ensures DataBlock(lines) + rest == "data: " + lines[0] + "\n" + (DataBlock(lines[1..]) + rest)
    ensures Fed(lines) == lines[0] + "\n" + Fed(lines[1..])
  {
  }

  lemma {:induction false} DataLinesRead(lines: seq<string>, rest: string, b: Buffers)
    requires forall i :: 0 <= i < |lines| ==> OneLine(lines[i])
    ensures Interpret(DataBlock(lines) + rest, b) == Interpret(rest, Buffers(b.data + Fed(lines), b.kind))
  {
    if lines == [] {
      assert "" + rest == rest && b.data + "" == b.data;
    } else {
      var more, fed := DataBlock(lines[1..]) + rest, lines[0] + "\n";
      BlockOpens(lines, rest);
      DataLineRead(lines[0], more, b);
      DataLinesRead(lines[1..], rest, Buffers(b.data + fed, b.kind));
      assert b.data + fed + Fed(lines[1..]) == b.data + Fed(lines);
    }
  }

  lemma {:induction false} SplitFeeds(text: string)
    ensures Fed(SplitLines(text)) == text + "\n"
  {
    if text == [] {
      assert Fed([""]) == "" + "\n" + Fed([]);
      assert "" + "\n" + "" == text + "\n";
    } else {
      var rest := SplitLines(text[1..]);
      SplitFeeds(text[1..]);
      assert text == [text[0]] + text[1..];
      assert rest == [rest[0]] + rest[1..];
      if text[0] != '\n' {
        var joined := [[text[0]] + rest[0]] + rest[1..];
        assert joined[1..] == rest[1..];
        assert Fed(joined) == ([text[0]] + rest[0]) + "\n" + Fed(rest[1..]);
        assert ([text[0]] + rest[0]) + "\n" + Fed(rest[1..]) == [text[0]] + Fed(rest);
        assert [text[0]] + (text[1..] + "\n") == text + "\n";
      } else {
        assert ([""] + rest)[1..] == rest;
      }
    }
  }

  lemma {:induction false} SplitOneLine(text: string)
    requires '\r' !in text
    ensures forall i :: 0 <= i < |SplitLines(text)| ==> OneLine(SplitLines(text)[i])
  {
    if text != [] { SplitOneLine(text[1..]); }
  }

  /** Event names as the event classes declare them: not empty, on one line. */
  predicate Named(name: string) { name != "" && OneLine(name) }

  lemma FrameRead(name: string, text: string, rest: string)
    requires Named(name) && '\r' !in text
    ensures Interpret(Frame(name, text) + rest, CLEAR) == [Message(name, text)] + Interpret(rest, CLEAR)
  {
    var lines := SplitLines(text);
    var tail := DataBlock(lines) + ("\n" + rest);
    JoinedIsBlock(lines);
    assert Frame(name, text) + rest == "event: " + name + "\n" + tail;
    InterpretLine("event: " + name, tail, CLEAR);
    EventField(CLEAR, name);
    SplitFeeds(text);
    SplitOneLine(text);
    DataLinesRead(lines, "\n" + rest, Buffers("", name));
    BlankLineRead(name, text, rest);
    assert "" + Fed(lines) == text + "\n";
  }

  lemma BlankLineRead(name: string, text: string, rest: string)
    requires name != ""
    ensures Interpret("\n" + rest, Buffers(text + "\n", name)) == [Message(name, text)] + Interpret(rest, CLEAR)
  {
    InterpretLine("", rest, Buffers(text + "\n", name));
    assert "" + "\n" + rest == "\n" + rest;
    assert (text + "\n")[..|text|] == text;
  }

  // ---------------------------------------------------------------------
  // Whole streams
  // ---------------------------------------------------------------------

  function Frames(ms: seq<Message>): string {
    if ms == [] then "" else Frame(ms[0].name, ms[0].data) + Frames(ms[1..])
  }

  lemma {:induction false} FramesRead(ms: seq<Message>)
    requires forall i :: 0 <= i < |ms| ==> Named(ms[i].name) && '\r' !in ms[i].data
    ensures Interpret(Frames(ms), CLEAR) == ms
  {
    if ms != [] {
      FrameRead(ms[0].name, ms[0].data, Frames(ms[1..]));
      FramesRead(ms[1..]);
      assert ms == [ms[0]] + ms[1..];
    }
  }

  predicate NoCr(b: Buffers) { '\r' !in b.data && '\r' !in b.kind }

  lemma {:induction false} LinesHaveNoCr(s: string)
    ensures NextLine(s).Some? ==> OneLine(NextLine(s).value.0)
  {
    if s != [] && !EndsLine(s[0]) { LinesHaveNoCr(s[1..]); }
  }

  /** No message a client ever reads holds a carriage return. */
  lemma {:induction false} NeverCr(s: string, b: Buffers)
    requires NoCr(b)
    ensures forall i :: 0 <= i < |Interpret(s, b)| ==> '\r' !in Interpret(s, b)[i].data
    decreases |s|
  {
    var next := NextLine(s);
    if next.Some? {
      LinesHaveNoCr(s);
      if next.value.0 == "" {
        NeverCr(next.value.1, CLEAR);
      } else {
        NeverCr(next.value.1, Field(b, next.value.0));
      }
    }
  }

  /** Frames written one after another are read back as exactly the names and texts encoded --
      empty lines and leading spaces included -- if and only if no text holds a carriage return. */
  lemma FramesRoundTripIff(ms: seq<Message>)
    requires forall i :: 0 <= i < |ms| ==> Named(ms[i].name)
    ensures Parse(Frames(ms)) == ms <==> forall i :: 0 <= i < |ms| ==> '\r' !in ms[i].data
  {
    var s := Frames(ms);
    if ms != [] { assert s[0] == 'e'; }
    if forall i :: 0 <= i < |ms| ==> '\r' !in ms[i].data {
      FramesRead(ms);
    } else {
      NeverCr(s, CLEAR);
    }
  }

  /** The loss: a carriage return in the text starts a new line for the client, so that what
      follows it, unless it happens to read as a field, is gone. */
  lemma CarriageReturnLoses(name: string, kept: string, lost: string)
    requires Named(name) && OneLine(kept) && OneLine(lost)
    requires lost != "" && ':' !in lost && lost != "event" && lost != "data"
    ensures Parse(Frame(name, kept + "\r" + lost)) == [Message(name, kept)]
  {
    hide Frame, Parse, Interpret, Field, OneLine, Named;
    var tail := "data: " + kept + "\r" + (lost + "\n" + "\n");
    FrameWithCr(name, kept, lost);
    NamedLine(name);
    InterpretLine("event: " + name, tail, CLEAR);
    EventField(CLEAR, name);
    DataCutAtCr(kept, lost, Buffers("", name));
    AfterTheCut(Buffers("" + kept + "\n", name), kept, lost);
  }

  lemma NamedLine(name: string)
    requires Named(name)
    ensures OneLine("event: " + name) && name != ""
  {
  }

  lemma FrameWithCr(name: string, kept: string, lost: string)
    requires OneLine(kept) && OneLine(lost)
    ensures var f := Frame(name, kept + "\r" + lost);
      f == "event: " + name + "\n" + ("data: " + kept + "\r" + (lost + "\n" + "\n")) && Parse(f) == Interpret(f, CLEAR)
  {
    OneDataLine(kept + "\r" + lost);
  }

  lemma DataCutAtCr(kept: string, lost: string, b: Buffers)
    requires OneLine(kept) && OneLine(lost) && lost != ""
    ensures var end := lost + "\n" + "\n";
      Interpret("data: " + kept + "\r" + end, b) == Interpret(end, b.(data := b.data + kept + "\n"))
  {
    CutAtCr("data: " + kept, lost + "\n" + "\n");
    DataField(b, kept);
  }

  lemma AfterTheCut(fed: Buffers, kept: string, lost: string)
    requires OneLine(lost) && lost != "" && ':' !in lost && lost != "event" && lost != "data"
    requires fed.data == "" + kept + "\n" && fed.kind != ""
    ensures Interpret(lost + "\n" + "\n", fed) == [Message(fed.kind, kept)]
  {
    NoColon(lost);
    assert lost[..|lost|] == lost;
    InterpretLine(lost, "\n", fed);
    assert "\n" == "" + "\n" + "";
    InterpretLine("", "", fed);
    assert Interpret("", CLEAR) == [] && fed.data[..|kept|] == kept;
  }

  lemma {:induction false} NoColon(line: string)
    requires ':' !in line
    ensures ColonAt(line) == |line|
  {
    if line != [] { NoColon(line[1..]); }
  }

  lemma {:induction false} OneDataLine(text: string)
    requires '\n' !in text
    ensures SplitLines(text) == [text]
  {
    if text != [] {
      OneDataLine(text[1..]);
      assert text == [text[0]] + text[1..];
    }
  }

  lemma {:induction false} CutAtCr(line: string, rest: string)
    requires OneLine(line) && (rest == "" || rest[0] != '\n')
    ensures NextLine(line + "\r" + rest) == Some((line, rest))
  {
    var s := line + "\r" + rest;
    if line == [] {
      assert s[1..] == rest;
    } else {
      assert s[1..] == line[1..] + "\r" + rest;
      CutAtCr(line[1..], rest);
      assert line == [line[0]] + line[1..];
    }
  }

  // ---------------------------------------------------------------------
  // One connection
  // ---------------------------------------------------------------------

  /** The per-connection filter on one event; a filter that raises lets the event through. */
  datatype FilterResult = Pass | Suppress | Crash

  /** An event as the encoder sees it: rendered to HTML, or dumped to JSON behind the guard
      against unknown names. */
  datatype Event = Event(name: string, text: string, html: bool, filter: FilterResult)

  function EncodeEvent(e: Event, known: set<string>): string {
    if !e.html && e.name !in known then "" else Frame(e.name, e.text)
  }

  /** What _drain_one came back with, and whether the server was found shutting down then. */
  datatype Drained = Timeout | Dead | Got(events: seq<Event>)

  datatype Turn = Turn(drained: Drained, shutdown: bool)

  predicate Shown(e: Event, known: set<string>) { e.filter != Suppress && (e.html || e.name in known) }

  function ShownEvents(es: seq<Event>, known: set<string>): seq<Message> {
    if es == [] then []
    else
      var rest := ShownEvents(es[..|es| - 1], known);
      var e := es[|es| - 1];
      if Shown(e, known) then rest + [Message(e.name, e.text)] else rest
  }

  /** The messages one turn is due: the events shown, or a ping when there were none at all. */
  function DueIn(d: Drained, known: set<string>): seq<Message> {
    match d
    case Timeout => [Message("ping", "")]
    case Dead => []
    case Got(es) => if es == [] then [Message("ping", "")] else ShownEvents(es, known)
  }

  /** The turns up to the first that ends the connection. */
  function Due(turns: seq<Turn>, known: set<string>): seq<Message> {
    if turns == [] || turns[0].shutdown || turns[0].drained.Dead? then []
    else DueIn(turns[0].drained, known) + Due(turns[1..], known)
  }

  /** An event is shown unless the filter says no; a filter that raises lets it through, and an
      event that is not rendered needs a known name. */
  lemma ShownOne(e: Event, known: set<string>)
    ensures ShownEvents([], known) == []
    ensures ShownEvents([e], known) ==
      if (e.filter == Pass || e.filter == Crash) && (e.html || e.name in known) then [Message(e.name, e.text)] else []
  {
    assert [e][..0] == [];
    assert ShownEvents([], known) == [];
  }

  lemma {:induction false} ShownInOrder(a: seq<Event>, b: seq<Event>, known: set<string>)
    ensures ShownEvents(a + b, known) == ShownEvents(a, known) + ShownEvents(b, known)
  {
    if b == [] {
      assert a + b == a;
    } else {
      ShownInOrder(a, b[..|b| - 1], known);
      assert (a + b)[..|a + b| - 1] == a + b[..|b| - 1];
    }
  }

  /** What each turn is due, and which turn is the last: one that finds the server shutting down,
      or the subscription dead, yields nothing any more. */
  lemma DueTurn(t: Turn, rest: seq<Turn>, known: set<string>)
    ensures Due([t] + rest, known) ==
      if t.shutdown || t.drained == Dead then []
      else if t.drained.Got? && |t.drained.events| > 0 then ShownEvents(t.drained.events, known) + Due(rest, known)
      else [Message("ping", "")] + Due(rest, known)
    ensures Due([], known) == []
  {
    assert ([t] + rest)[1..] == rest;
  }

  lemma PingIsFrame()
    ensures PING == Frame("ping", "")
  {
    assert SplitLines("") == [""];
    assert DataLines([""]) == "data: " + "";
  }

  lemma {:induction false} FramesJoin(a: seq<Message>, b: seq<Message>)
    ensures Frames(a + b) == Frames(a) + Frames(b)
  {
    if a == [] {
      assert a + b == b;
    } else {
      assert (a + b)[1..] == a[1..] + b;
      FramesJoin(a[1..], b);
    }
  }

  lemma OneFrame(m: Message)
    ensures Frames([m]) == Frame(m.name, m.data)
  {
    assert [m][1..] == [];
    assert Frames([]) == "";
  }

  class Streamer {
    var activeSubscribers: int

    constructor ()
      ensures activeSubscribers == 0
    {
      activeSubscribers := 0;
    }

    /** The events of one batch that pass the filter and the guard, in order, each as one frame. */
    method EncodeBatch(es: seq<Event>, known: set<string>) returns (wire: string)
      ensures wire == Frames(ShownEvents(es, known))
    {
      wire := "";
      for i := 0 to |es|
        invariant wire == Frames(ShownEvents(es[..i], known))
      {
        assert es[..i + 1][..i] == es[..i];
        if es[i].filter != Suppress {
          var encoded := EncodeEvent(es[i], known);
          if Shown(es[i], known) {
            FramesJoin(ShownEvents(es[..i], known), [Message(es[i].name, es[i].text)]);
            OneFrame(Message(es[i].name, es[i].text));
          }
          if encoded != "" {
            wire := wire + encoded;
          }
        }
      }
      assert es[..|es|] == es;
    }

    /** A connection from its opening ping to its end; the list of turns ends where the client
        disconnects. The subscriber count is back to what it was. */
    method Stream(turns: seq<Turn>, known: set<string>) returns (wire: string)
      modifies this
      ensures activeSubscribers == old(activeSubscribers)
      ensures wire == Frames([Message("ping", "")] + Due(turns, known))
    {
      activeSubscribers := activeSubscribers + 1;
      wire := PING;
      ghost var sent: seq<Message> := [Message("ping", "")];
      PingIsFrame();
      OneFrame(Message("ping", ""));
      var i := 0;
      while i < |turns|
        invariant 0 <= i <= |turns|
        invariant wire == Frames(sent) && activeSubscribers == old(activeSubscribers) + 1
        invariant sent + Due(turns[i..], known) == [Message("ping", "")] + Due(turns, known)
      {
        if turns[i].shutdown || turns[i].drained.Dead? {
          break;
        }
        ghost var due := DueIn(turns[i].drained, known);
        FramesJoin(sent, due);
        if turns[i].drained.Timeout? || turns[i].drained.events == [] {
          OneFrame(Message("ping", ""));
          wire := wire + PING;
        } else {
          var batch := EncodeBatch(turns[i].drained.events, known);
          wire := wire + batch;
        }
        assert turns[i..][1..] == turns[i + 1..];
        assert (sent + due) + Due(turns[i + 1..], known) == sent + Due(turns[i..], known);
        sent := sent + due;
        i := i + 1;
      }
      assert Due(turns[i..], known) == [];
      assert sent + Due(turns[i..], known) == sent;
      activeSubscribers := activeSubscribers - 1;
    }
  }

  /** What the client of a connection reads: a first ping, then exactly the events shown and the
      pings, in order, whenever no shown text holds a carriage return. */
  lemma ConnectionReads(turns: seq<Turn>, known: set<string>)
    requires forall i :: 0 <= i < |Due(turns, known)| ==> Named(Due(turns, known)[i].name) && '\r' !in Due(turns, known)[i].data
    ensures Parse(Frames([Message("ping", "")] + Due(turns, known))) == [Message("ping", "")] + Due(turns, known)
  {
    FramesRoundTripIff([Message("ping", "")] + Due(turns, known));
  }
}
