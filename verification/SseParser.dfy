/**
  The incremental parser of the browser hook (frontend/hooks/useStreamingAI.ts) for the event stream
  that _sse prints (backend/financeops/llm/streaming.py).
*/
module SseParser {
  import opened Wrappers
  import opened PyText

  /** What the hook reads off a parsed JSON value; a missing or falsy field is "" or false. */
  datatype Event = Null | Fields(chunk: string, done: bool, error: string)

  /** JSON.parse; None when it throws. */
  type Decoder = string -> Option<Event>

  const MALFORMED := "Malformed streaming payload"

  /** The characters String.prototype.trim removes. */
  predicate IsJsSpace(c: char) {
    || '\t' <= c <= '\r' || c == ' '
    || c in {'\U{A0}', '\U{1680}', '\U{2028}', '\U{2029}', '\U{202F}', '\U{205F}', '\U{3000}', '\U{FEFF}'}
    || '\U{2000}' <= c <= '\U{200A}'
  }

  /** Where the first blank line starts: indexOf("\n\n"). */
  function FindBreak(s: string): (at: Option<nat>)
    ensures at.Some? ==> at.value + 2 <= |s| && s[at.value] == s[at.value + 1] == '\n'
  {
    if |s| < 2 then None
    else if s[0] == s[1] == '\n' then Some(0)
    else
      match FindBreak(s[1..])
      case None => None
      case Some(i) => Some(i + 1)
  }

  function Lines(s: string): seq<string> {
    if s == "" then [""]
    else
      var rest := Lines(s[1..]);
      if s[0] == '\n' then [""] + rest else if rest == [] then [[s[0]]] else [[s[0]] + rest[0]] + rest[1..]
  }

  const DATA := "data: "

  /** One line of an event: only data lines with something after the prefix count. */
  function LineEvents(decode: Decoder, line: string): seq<Event> {
    if !(DATA <= line) then []
    else
      var json := StripChars(line[6..], IsJsSpace);
      if json == "" then []
      else
        match decode(json)
        case Some(e) => [e]
        case None => [Fields("", false, MALFORMED)]
  }

  function RawEvents(decode: Decoder, lines: seq<string>): seq<Event> {
    if lines == [] then []
    else RawEvents(decode, lines[..|lines| - 1]) + LineEvents(decode, lines[|lines| - 1])
  }

  datatype Parsed = Parsed(events: seq<Event>, remainder: string)

  function Parse(decode: Decoder, buffer: string): Parsed
    decreases |buffer|
  {
    match FindBreak(buffer)
    case None => Parsed([], buffer)
    case Some(i) =>
      var rest := Parse(decode, buffer[i + 2..]);
      Parsed(RawEvents(decode, Lines(buffer[..i])) + rest.events, rest.remainder)
  }

  method PushRawEvent(decode: Decoder, rawEvent: string, before: seq<Event>) returns (events: seq<Event>)
    ensures events == before + RawEvents(decode, Lines(rawEvent))
  {
    events := before;
    var lines := Lines(rawEvent);
    for i := 0 to |lines|
      invariant events == before + RawEvents(decode, lines[..i])
    {
      assert lines[..i + 1][..i] == lines[..i];
      var line := lines[i];
      if DATA <= line {
        var json := StripChars(line[6..], IsJsSpace);
        if json != "" {
          var e := decode(json);
          events := events + [if e.Some? then e.value else Fields("", false, MALFORMED)];
        }
      }
      assert events == before + (RawEvents(decode, lines[..i]) + LineEvents(decode, line));
    }
    assert lines[..|lines|] == lines;
  }

  lemma ParseBreak(decode: Decoder, s: string)
    requires FindBreak(s).Some?
    ensures var i := FindBreak(s).value;
      var rest := Parse(decode, s[i + 2..]);
      Parse(decode, s) == Parsed(RawEvents(decode, Lines(s[..i])) + rest.events, rest.remainder)
  {
    hide FindBreak, Lines, RawEvents;
  }

  /** What has been read off the front of the buffer, and what is still to be read. */
  predicate ParsedUpTo(decode: Decoder, buffer: string, events: seq<Event>, remainder: string) {
    Parse(decode, buffer) == Parsed(events + Parse(decode, remainder).events, Parse(decode, remainder).remainder)
  }

  lemma NothingRead(decode: Decoder, buffer: string)
    ensures ParsedUpTo(decode, buffer, [], buffer)
  {
    hide Parse;
  }

  lemma AllRead(decode: Decoder, buffer: string, events: seq<Event>, remainder: string)
    requires ParsedUpTo(decode, buffer, events, remainder) && FindBreak(remainder).None?
    ensures Parse(decode, buffer) == Parsed(events, remainder)
  {
    hide FindBreak, Lines, RawEvents;
  }

  lemma OneMoreEvent(decode: Decoder, buffer: string, events: seq<Event>, remainder: string)
    requires ParsedUpTo(decode, buffer, events, remainder) && FindBreak(remainder).Some?
    ensures var i := FindBreak(remainder).value;
      ParsedUpTo(decode, buffer, events + RawEvents(decode, Lines(remainder[..i])), remainder[i + 2..])
  {
    hide FindBreak, Lines, RawEvents, Parse;
    var i := FindBreak(remainder).value;
    ParseBreak(decode, remainder);
    Regroup(events, RawEvents(decode, Lines(remainder[..i])), Parse(decode, remainder[i + 2..]).events);
  }

  method ParseSseChunks(decode: Decoder, buffer: string) returns (events: seq<Event>, remainder: string)
    ensures Parsed(events, remainder) == Parse(decode, buffer)
  {
    hide FindBreak, Lines, RawEvents, Parse, ParsedUpTo;
    events, remainder := [], buffer;
    NothingRead(decode, buffer);
    while true
      invariant ParsedUpTo(decode, buffer, events, remainder)
      decreases |remainder|
    {
      var at := FindBreak(remainder);
      if at.None? {
        AllRead(decode, buffer, events, remainder);
        return;
      }
      OneMoreEvent(decode, buffer, events, remainder);
      events := PushRawEvent(decode, remainder[..at.value], events);
      remainder := remainder[at.value + 2..];
    }
  }

  // ----- Cutting the stream anywhere -----

  lemma {:induction false} BreakIsStable(a: string, b: string)
    requires FindBreak(a).Some?
    ensures FindBreak(a + b) == FindBreak(a)
  {
    if !(a[0] == a[1] == '\n') {
      BreakIsStable(a[1..], b);
      assert (a + b)[1..] == a[1..] + b;
    }
  }

  /** Parsing a, keeping the remainder and parsing on when b arrives is parsing a + b. */
  lemma {:induction false} ParseInTwo(decode: Decoder, a: string, b: string)
    ensures var first := Parse(decode, a);
      var second := Parse(decode, first.remainder + b);
      Parse(decode, a + b) == Parsed(first.events + second.events, second.remainder)
    decreases |a|
  {
    hide FindBreak, Lines, RawEvents;
    if FindBreak(a).Some? {
      var i := FindBreak(a).value;
      BreakIsStable(a, b);
      assert (a + b)[..i] == a[..i] && (a + b)[i + 2..] == a[i + 2..] + b;
      ParseBreak(decode, a);
      ParseBreak(decode, a + b);
      ParseInTwo(decode, a[i + 2..], b);
      var raw, rest := RawEvents(decode, Lines(a[..i])), Parse(decode, a[i + 2..]);
      Regroup(raw, rest.events, Parse(decode, rest.remainder + b).events);
    }
  }

  lemma Regroup<T>(a: seq<T>, b: seq<T>, c: seq<T>)
    ensures a + (b + c) == a + b + c
  {
  }

  lemma {:induction false} RemainderHasNoBreak(decode: Decoder, s: string)
    ensures FindBreak(Parse(decode, s).remainder).None?
    decreases |s|
  {
    if FindBreak(s).Some? {
      RemainderHasNoBreak(decode, s[FindBreak(s).value + 2..]);
    }
  }

  // ----- Reading back what _sse prints -----

  function Frame(json: string): string { DATA + json + "\n\n" }

  /** A JSON text as the encoder prints it: one line, no blanks around it. */
  predicate CleanJson(json: string) {
    '\n' !in json && json != "" && Trimmed(json, IsJsSpace)
  }

  lemma {:induction false} FirstBreakAt(line: string, rest: string)
    requires '\n' !in line
    ensures FindBreak(line + "\n\n" + rest) == Some(|line|)
  {
    var s := line + "\n\n" + rest;
    if line != "" {
      assert s[0] == line[0] && line[0] in line;
      assert s[1..] == line[1..] + "\n\n" + rest;
      FirstBreakAt(line[1..], rest);
    }
  }

  lemma {:induction false} OneLineOnly(s: string)
    requires '\n' !in s
    ensures Lines(s) == [s]
  {
    if s != "" {
      assert s[0] in s;
      OneLineOnly(s[1..]);
      assert s == [s[0]] + s[1..];
    }
  }

  lemma FrameThenRest(decode: Decoder, json: string, rest: string)
    requires CleanJson(json) && decode(json).Some?
    ensures Parse(decode, Frame(json) + rest)
         == Parsed([decode(json).value] + Parse(decode, rest).events, Parse(decode, rest).remainder)
  {
    hide FindBreak, Lines, RawEvents, Parse, CleanJson;
    var line := DATA + json;
    var s := Frame(json) + rest;
    FrameLine(json, rest);
    FrameEvents(decode, json);
    ParseBreak(decode, s);
  }

  lemma FrameLine(json: string, rest: string)
    requires CleanJson(json)
    ensures var s, line := Frame(json) + rest, DATA + json;
      && FindBreak(s) == Some(|line|) && s[..|line|] == line && s[|line| + 2..] == rest
  {
    hide FindBreak;
    var line := DATA + json;
    assert Frame(json) + rest == line + "\n\n" + rest;
    FirstBreakAt(line, rest);
  }

  lemma FrameEvents(decode: Decoder, json: string)
    requires CleanJson(json) && decode(json).Some?
    ensures RawEvents(decode, Lines(DATA + json)) == [decode(json).value]
  {
    hide Lines, StripChars;
    var line := DATA + json;
    OneLineOnly(line);
    StripFacts(json, IsJsSpace);
    assert line[6..] == json;
    assert RawEvents(decode, [line]) == RawEvents(decode, []) + LineEvents(decode, line);
  }

  lemma OneLineEvent(decode: Decoder, line: string, rest: string)
    requires '\n' !in line
    ensures Parse(decode, line + "\n\n" + rest)
         == Parsed(LineEvents(decode, line) + Parse(decode, rest).events, Parse(decode, rest).remainder)
  {
    hide FindBreak, Lines, RawEvents, Parse, LineEvents;
    var s := line + "\n\n" + rest;
    FirstBreakAt(line, rest);
    OneLineOnly(line);
    RawOfOne(decode, line);
    assert s[..|line|] == line && s[|line| + 2..] == rest;
    ParseBreak(decode, s);
  }

  lemma RawOfOne(decode: Decoder, line: string)
    ensures RawEvents(decode, [line]) == LineEvents(decode, line)
  {
    hide LineEvents;
    assert [line][..0] == [];
  }

  /**
    An event of one line: without the prefix, or with nothing but blanks behind it, it is passed over; a text
    the decoder takes is the event; one it rejects is an error event that says so.
  */
  lemma LineIsRead(decode: Decoder, line: string, rest: string)
    requires '\n' !in line
    ensures var p, q := Parse(decode, line + "\n\n" + rest), Parse(decode, rest);
      && p.remainder == q.remainder
      && (!("data: " <= line) ==> p.events == q.events)
      && ("data: " <= line ==>
            var json := StripChars(line[6..], IsJsSpace);
            && (json == "" ==> p.events == q.events)
            && (json != "" && decode(json).Some? ==> p.events == [decode(json).value] + q.events)
            && (json != "" && decode(json).None? ==>
                  p.events == [Fields("", false, "Malformed streaming payload")] + q.events))
  {
    hide Parse, StripChars;
    OneLineEvent(decode, line, rest);
  }

  function Concat(parts: seq<string>): string {
    if parts == [] then "" else parts[0] + Concat(parts[1..])
  }

  function Frames(jsons: seq<string>): string {
    if jsons == [] then "" else Frame(jsons[0]) + Frames(jsons[1..])
  }

  lemma NothingToParse(decode: Decoder)
    ensures Parse(decode, "") == Parsed([], "")
  {
  }

  /** Any concatenation of printed frames parses to exactly the printed payloads, with nothing left over. */
  lemma {:induction false} FramesRoundTrip(decode: Decoder, jsons: seq<string>)
    requires forall j :: j in jsons ==> CleanJson(j) && decode(j).Some?
    ensures var p := Parse(decode, Frames(jsons));
      && p.remainder == ""
      && |p.events| == |jsons|
      && forall k :: 0 <= k < |jsons| ==> Some(p.events[k]) == decode(jsons[k])
  {
    if jsons == [] {
      NothingToParse(decode);
    } else {
      hide Parse, CleanJson, Frame;
      FrameThenRest(decode, jsons[0], Frames(jsons[1..]));
      FramesRoundTrip(decode, jsons[1..]);
    }
  }
}
