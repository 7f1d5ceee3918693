/**
  One streamed answer from the server's fallback loop (backend/financeops/llm/streaming.py) to what the
  browser shows (frontend/hooks/useStreamingAI.ts).
*/
module StreamingAi {
  import opened Wrappers
  import opened PyText
  import opened SseParser

  const UNABLE := "Unable to stream AI response"

  // ----- The browser -----

  /** What the user sees; finished means the hook has stopped reading. */
  datatype View = View(response: string, error: Option<string>, finished: bool)

  const BLANK := View("", None, false)

  /** One event; reading a field of null throws, which the hook reports like a broken connection. */
  function Show(v: View, e: Event): View {
    if v.finished then v
    else if e.Null? then View(v.response, Some(UNABLE), true)
    else if e.error != "" then View(v.response, Some(e.error), true)
    else View(v.response + e.chunk, None, e.done)
  }

  function ShowAll(v: View, events: seq<Event>): View {
    if events == [] then v else Show(ShowAll(v, events[..|events| - 1]), events[|events| - 1])
  }

  /** What is shown for a whole stream, however it is cut; broken says the connection fails after it. */
  function Shown(decode: Decoder, text: string, broken: bool): View {
    var v := ShowAll(BLANK, Parse(decode, text).events);
    if !v.finished && broken then View(v.response, Some(UNABLE), true) else v
  }

  lemma {:induction false} ShowAllConcat(v: View, a: seq<Event>, b: seq<Event>)
    ensures ShowAll(v, a + b) == ShowAll(ShowAll(v, a), b)
  {
    if b == [] {
      assert a + b == a;
    } else {
      ShowAllConcat(v, a, b[..|b| - 1]);
      assert (a + b)[..|a + b| - 1] == a + b[..|b| - 1];
    }
  }

  lemma {:induction false} FinishedStays(v: View, events: seq<Event>)
    requires v.finished
    ensures ShowAll(v, events) == v
  {
    if events != [] {
      FinishedStays(v, events[..|events| - 1]);
    }
  }

  lemma {:induction false} ConcatSplit(a: seq<string>, b: seq<string>)
    ensures Concat(a + b) == Concat(a) + Concat(b)
  {
    if a == [] {
      assert a + b == b;
    } else {
      ConcatSplit(a[1..], b);
      assert (a + b)[0] == a[0] && (a + b)[1..] == a[1..] + b;
    }
  }

  /** If the first part of the stream has finished the view, the rest of it does not matter. */
  lemma EarlyFinish(decode: Decoder, text: string, rest: string, broken: bool)
    requires ShowAll(BLANK, Parse(decode, text).events).finished
    ensures Shown(decode, text + rest, broken) == ShowAll(BLANK, Parse(decode, text).events)
  {
    ParseInTwo(decode, text, rest);
    var more := Parse(decode, Parse(decode, text).remainder + rest).events;
    ShowAllConcat(BLANK, Parse(decode, text).events, more);
    FinishedStays(ShowAll(BLANK, Parse(decode, text).events), more);
  }

  lemma NextChunk(decode: Decoder, text: string, chunk: string)
    ensures var p, q := Parse(decode, text), Parse(decode, Parse(decode, text).remainder + chunk);
      && Parse(decode, text + chunk).remainder == q.remainder
      && ShowAll(BLANK, Parse(decode, text + chunk).events) == ShowAll(ShowAll(BLANK, p.events), q.events)
  {
    ParseInTwo(decode, text, chunk);
    ShowAllConcat(BLANK, Parse(decode, text).events, Parse(decode, Parse(decode, text).remainder + chunk).events);
  }

  lemma ConcatOne(chunk: string)
    ensures Concat([chunk]) == chunk
  {
    assert [chunk][1..] == [];
  }

  lemma ConcatTake(chunks: seq<string>, i: nat)
    requires i < |chunks|
    ensures Concat(chunks[..i + 1]) == Concat(chunks[..i]) + chunks[i]
  {
    ConcatOne(chunks[i]);
    assert chunks[..i + 1] == chunks[..i] + [chunks[i]];
    ConcatSplit(chunks[..i], [chunks[i]]);
  }

  lemma ConcatCut(chunks: seq<string>, i: nat)
    requires i <= |chunks|
    ensures Concat(chunks) == Concat(chunks[..i]) + Concat(chunks[i..])
  {
    assert chunks == chunks[..i] + chunks[i..];
    ConcatSplit(chunks[..i], chunks[i..]);
  }

  class StreamingHook {
    var response: string
    var isStreaming: bool
    var error: Option<string>

    constructor ()
      ensures response == "" && !isStreaming && error.None?
    {
      response, isStreaming, error := "", false, None;
    }

    /** Handles the events of one read; stop tells the caller to return. */
    method Handle(events: seq<Event>) returns (stop: bool)
      requires error.None?
      modifies `response, `error
      ensures View(response, error, stop) == ShowAll(View(old(response), None, false), events)
      ensures !stop ==> error.None?
    {
      ghost var start := View(response, None, false);
      for i := 0 to |events|
        invariant error.None? && View(response, None, false) == ShowAll(start, events[..i])
      {
        assert events[..i + 1][..i] == events[..i];
        assert events == events[..i + 1] + events[i + 1..];
        var e := events[i];
        ghost var after := Show(View(response, None, false), e);
        ShowAllConcat(start, events[..i + 1], events[i + 1..]);
        if after.finished {
          FinishedStays(after, events[i + 1..]);
        }
        if e.Null? {
          error := Some(UNABLE);
          return true;
        }
        if e.error != "" {
          error := Some(e.error);
          return true;
        }
        response := response + e.chunk;
        if e.done {
          return true;
        }
      }
      assert events[..|events|] == events;
      return false;
    }

    /**
      Reads the chunks as they come. What is shown at the end depends on the text of the stream
      only, not on where the network cut it.
    */
    method Stream(decode: Decoder, chunks: seq<string>, broken: bool)
      modifies this
      ensures var v := Shown(decode, Concat(chunks), broken); response == v.response && error == v.error
      ensures !isStreaming
    {
      response, error, isStreaming := "", None, true;
      var buffered := "";
      for i := 0 to |chunks|
        invariant error.None? && isStreaming
        invariant buffered == Parse(decode, Concat(chunks[..i])).remainder
        invariant View(response, None, false) == ShowAll(BLANK, Parse(decode, Concat(chunks[..i])).events)
      {
        ConcatTake(chunks, i);
        ConcatCut(chunks, i + 1);
        NextChunk(decode, Concat(chunks[..i]), chunks[i]);
        var events, remainder := ParseSseChunks(decode, buffered + chunks[i]);
        buffered := remainder;
        var stop := Handle(events);
        if stop {
          EarlyFinish(decode, Concat(chunks[..i + 1]), Concat(chunks[i + 1..]), broken);
          isStreaming := false;
          return;
        }
      }
      assert chunks[..|chunks|] == chunks;
      if broken {
        error := Some(UNABLE);
      }
      isStreaming := false;
    }
  }

  // ----- The server -----

  datatype Payload = Chunk(text: string) | Done | Error(message: string)

  /** What one model does: the chunks it yields, then success or an exception with this message. */
  datatype Attempt = Attempt(chunks: seq<string>, failure: Option<string>)

  /** json.dumps of a payload together with the trace id. */
  type Encoder = Payload -> string

  function ViewOf(p: Payload): Event {
    match p
    case Chunk(text) => Fields(text, false, "")
    case Done => Fields("", true, "")
    case Error(message) => Fields("", false, message)
  }

  /** JSON round-trips, and is printed on one line with no blanks around it. */
  ghost predicate Codec(encode: Encoder, decode: Decoder) {
    forall p :: CleanJson(encode(p)) && decode(encode(p)) == Some(ViewOf(p))
  }

  function ChunkPayloads(chunks: seq<string>): seq<Payload> {
    if chunks == [] then [] else [Chunk(chunks[0])] + ChunkPayloads(chunks[1..])
  }

  const ALL_FAILED := "All models failed"

  /** Models in order until one succeeds; last is the message of the latest failure. */
  function Payloads(attempts: seq<Attempt>, last: string): seq<Payload> {
    if attempts == [] then [Error(last)]
    else
      var a := attempts[0];
      ChunkPayloads(a.chunks) + (if a.failure.None? then [Done] else Payloads(attempts[1..], a.failure.value))
  }

  function Encoded(encode: Encoder, ps: seq<Payload>): seq<string> {
    if ps == [] then [] else [encode(ps[0])] + Encoded(encode, ps[1..])
  }

  lemma {:induction false} EncodedConcat(encode: Encoder, a: seq<Payload>, b: seq<Payload>)
    ensures Encoded(encode, a + b) == Encoded(encode, a) + Encoded(encode, b)
  {
    if a == [] {
      assert a + b == b;
    } else {
      EncodedConcat(encode, a[1..], b);
      Regroup([encode(a[0])], Encoded(encode, a[1..]), Encoded(encode, b));
      assert (a + b)[0] == a[0] && (a + b)[1..] == a[1..] + b;
    }
  }

  lemma {:induction false} ChunkPayloadsConcat(a: seq<string>, b: seq<string>)
    ensures ChunkPayloads(a + b) == ChunkPayloads(a) + ChunkPayloads(b)
  {
    if a == [] {
      assert a + b == b;
    } else {
      ChunkPayloadsConcat(a[1..], b);
      Regroup([Chunk(a[0])], ChunkPayloads(a[1..]), ChunkPayloads(b));
      assert (a + b)[0] == a[0] && (a + b)[1..] == a[1..] + b;
    }
  }

  lemma {:induction false} FramesConcat(a: seq<string>, b: seq<string>)
    ensures Frames(a + b) == Frames(a) + Frames(b)
  {
    if a == [] {
      assert a + b == b;
    } else {
      FramesConcat(a[1..], b);
      Regroup(Frame(a[0]), Frames(a[1..]), Frames(b));
      assert (a + b)[0] == a[0] && (a + b)[1..] == a[1..] + b;
    }
  }

  lemma FramesNext(encode: Encoder, ps: seq<Payload>, p: Payload)
    ensures Frames(Encoded(encode, ps + [p])) == Frames(Encoded(encode, ps)) + Frame(encode(p))
  {
    EncodedConcat(encode, ps, [p]);
    FramesConcat(Encoded(encode, ps), [encode(p)]);
    assert Encoded(encode, [p]) == [encode(p)];
    assert Frames([encode(p)]) == Frame(encode(p));
  }

  /** The chunk frames of one model. */
  method YieldChunks(encode: Encoder, chunks: seq<string>, ghost ps: seq<Payload>, before: string) returns (out: string)
    requires before == Frames(Encoded(encode, ps))
    ensures out == Frames(Encoded(encode, ps + ChunkPayloads(chunks)))
  {
    out := before;
    assert ps + [] == ps;
    for k := 0 to |chunks|
      invariant out == Frames(Encoded(encode, ps + ChunkPayloads(chunks[..k])))
    {
      ghost var said := ChunkPayloads(chunks[..k]);
      assert ChunkPayloads(chunks[..k + 1]) == said + [Chunk(chunks[k])] by {
        assert chunks[..k + 1] == chunks[..k] + [chunks[k]];
        ChunkPayloadsConcat(chunks[..k], [chunks[k]]);
      }
      Regroup(ps, said, [Chunk(chunks[k])]);
      FramesNext(encode, ps + said, Chunk(chunks[k]));
      out := out + Frame(encode(Chunk(chunks[k])));
    }
    assert chunks[..|chunks|] == chunks;
  }

  lemma PayloadsFrom(attempts: seq<Attempt>, i: nat, last: string)
    requires i < |attempts|
    ensures Payloads(attempts[i..], last) == ChunkPayloads(attempts[i].chunks)
      + (if attempts[i].failure.None? then [Done] else Payloads(attempts[i + 1..], attempts[i].failure.value))
  {
    assert attempts[i..][1..] == attempts[i + 1..];
  }

  /** The text the generator yields: its chunks as they come, a final done or error, nothing after. */
  method StreamLlmResponse(encode: Encoder, attempts: seq<Attempt>) returns (out: string)
    ensures out == Frames(Encoded(encode, Payloads(attempts, ALL_FAILED)))
  {
    out := "";
    var last := ALL_FAILED;
    ghost var ps: seq<Payload> := [];
    for i := 0 to |attempts|
      invariant out == Frames(Encoded(encode, ps))
      invariant Payloads(attempts, ALL_FAILED) == ps + Payloads(attempts[i..], last)
    {
      var a := attempts[i];
      PayloadsFrom(attempts, i, last);
      Regroup(ps, ChunkPayloads(a.chunks),
        if a.failure.None? then [Done] else Payloads(attempts[i + 1..], a.failure.value));
      out := YieldChunks(encode, a.chunks, ps, out);
      ps := ps + ChunkPayloads(a.chunks);
      if a.failure.None? {
        FramesNext(encode, ps, Done);
        out := out + Frame(encode(Done));
        return;
      }
      last := a.failure.value;
    }
    FramesNext(encode, ps, Error(last));
    out := out + Frame(encode(Error(last)));
  }

  // ----- From the models to the screen -----

  predicate Succeeds(attempts: seq<Attempt>) {
    exists k :: 0 <= k < |attempts| && attempts[k].failure.None?
  }

  /** Everything the models said up to and including the first that succeeded. */
  function Said(attempts: seq<Attempt>): string {
    if attempts == [] then ""
    else Concat(attempts[0].chunks) + (if attempts[0].failure.None? then "" else Said(attempts[1..]))
  }

  function LastFailure(attempts: seq<Attempt>, last: string): string {
    if attempts == [] then last
    else if attempts[0].failure.None? then last
    else LastFailure(attempts[1..], attempts[0].failure.value)
  }

  function Views(ps: seq<Payload>): seq<Event> {
    if ps == [] then [] else [ViewOf(ps[0])] + Views(ps[1..])
  }

  lemma {:induction false} ViewsConcat(a: seq<Payload>, b: seq<Payload>)
    ensures Views(a + b) == Views(a) + Views(b)
  {
    if a == [] {
      assert a + b == b;
    } else {
      ViewsConcat(a[1..], b);
      Regroup([ViewOf(a[0])], Views(a[1..]), Views(b));
      assert (a + b)[0] == a[0] && (a + b)[1..] == a[1..] + b;
    }
  }

  lemma {:induction false} FramesShowViews(encode: Encoder, decode: Decoder, ps: seq<Payload>)
    requires Codec(encode, decode)
    ensures Parse(decode, Frames(Encoded(encode, ps))) == Parsed(Views(ps), "")
  {
    if ps != [] {
      FramesShowViews(encode, decode, ps[1..]);
      FrameThenRest(decode, encode(ps[0]), Frames(Encoded(encode, ps[1..])));
    }
  }

  lemma ConcatHead(before: string, chunks: seq<string>)
    requires chunks != []
    ensures before + chunks[0] + Concat(chunks[1..]) == before + Concat(chunks)
  {
  }

  lemma FirstChunk(v: View, chunks: seq<string>)
    requires chunks != [] && !v.finished && v.error.None?
    ensures Views(ChunkPayloads(chunks)) == [ViewOf(Chunk(chunks[0]))] + Views(ChunkPayloads(chunks[1..]))
    ensures ShowAll(v, [ViewOf(Chunk(chunks[0]))]) == View(v.response + chunks[0], None, false)
  {
    assert [ViewOf(Chunk(chunks[0]))][..0] == [];
  }

  lemma {:induction false} ShowChunks(v: View, chunks: seq<string>)
    requires !v.finished && v.error.None?
    decreases |chunks|
    ensures ShowAll(v, Views(ChunkPayloads(chunks))) == View(v.response + Concat(chunks), None, false)
  {
    if chunks == [] {
      assert v.response + "" == v.response;
    } else {
      var first := View(v.response + chunks[0], None, false);
      var rest := Views(ChunkPayloads(chunks[1..]));
      FirstChunk(v, chunks);
      hide ShowAll, Views, ChunkPayloads, Concat;
      ShowAllConcat(v, [ViewOf(Chunk(chunks[0]))], rest);
      ShowChunks(first, chunks[1..]);
      ConcatHead(v.response, chunks);
    }
  }

  /** The view at the end of the server's stream. */
  function Expected(v: View, attempts: seq<Attempt>, last: string): View {
    var response := v.response + Said(attempts);
    if Succeeds(attempts) then View(response, None, true)
    else
      var message := LastFailure(attempts, last);
      if message == "" then View(response, None, false) else View(response, Some(message), true)
  }

  lemma ShowOne(v: View, p: Payload)
    ensures ShowAll(v, Views([p])) == Show(v, ViewOf(p))
  {
    assert Views([p]) == [ViewOf(p)] + Views([]);
    assert [ViewOf(p)][..0] == [];
  }

  lemma ShowOneAttempt(v: View, a: Attempt, rest: seq<Payload>)
    requires !v.finished && v.error.None?
    ensures ShowAll(v, Views(ChunkPayloads(a.chunks) + rest))
         == ShowAll(View(v.response + Concat(a.chunks), None, false), Views(rest))
  {
    ViewsConcat(ChunkPayloads(a.chunks), rest);
    ShowAllConcat(v, Views(ChunkPayloads(a.chunks)), Views(rest));
    ShowChunks(v, a.chunks);
  }

  lemma ExpectedAfter(v: View, attempts: seq<Attempt>, last: string)
    requires attempts != [] && attempts[0].failure.Some?
    ensures Expected(View(v.response + Concat(attempts[0].chunks), None, false), attempts[1..],
      attempts[0].failure.value)
         == Expected(v, attempts, last)
  {
    SucceedsLater(attempts);
    Regroup(v.response, Concat(attempts[0].chunks), Said(attempts[1..]));
  }

  lemma ExpectedAtSuccess(v: View, attempts: seq<Attempt>, last: string)
    requires attempts != [] && attempts[0].failure.None?
    ensures Expected(v, attempts, last) == View(v.response + Concat(attempts[0].chunks), None, true)
  {
    assert Said(attempts) == Concat(attempts[0].chunks);
  }

  lemma {:induction false} ShowAttempts(v: View, attempts: seq<Attempt>, last: string)
    requires !v.finished && v.error.None?
    decreases |attempts|
    ensures ShowAll(v, Views(Payloads(attempts, last))) == Expected(v, attempts, last)
  {
    if attempts == [] {
      ShowOne(v, Error(last));
      assert v.response + "" == v.response;
    } else {
      var a := attempts[0];
      var mid := View(v.response + Concat(a.chunks), None, false);
      if a.failure.None? {
        ShowOneAttempt(v, a, [Done]);
        ShowOne(mid, Done);
        ExpectedAtSuccess(v, attempts, last);
        assert mid.response + "" == mid.response;
      } else {
        ShowOneAttempt(v, a, Payloads(attempts[1..], a.failure.value));
        ShowAttempts(mid, attempts[1..], a.failure.value);
        ExpectedAfter(v, attempts, last);
      }
    }
  }

  lemma SucceedsLater(attempts: seq<Attempt>)
    requires attempts != [] && attempts[0].failure.Some?
    ensures Succeeds(attempts) <==> Succeeds(attempts[1..])
  {
    if Succeeds(attempts) {
      var k :| 0 <= k < |attempts| && attempts[k].failure.None?;
      assert attempts[1..][k - 1].failure.None?;
    }
  }

  /**
    From the models to the screen: the browser shows everything the models said up to the first
    success; an error shows exactly when every model failed and the last message is not empty.
  */
  lemma ScreenShowsTheAttempts(encode: Encoder, decode: Decoder, attempts: seq<Attempt>)
    requires Codec(encode, decode)
    ensures var v := Shown(decode, Frames(Encoded(encode, Payloads(attempts, ALL_FAILED))), false);
      && v.response == Said(attempts)
      && (v.finished <==> Succeeds(attempts) || LastFailure(attempts, ALL_FAILED) != "")
      && (v.error.Some? <==> !Succeeds(attempts) && LastFailure(attempts, ALL_FAILED) != "")
      && (v.error.Some? ==> v.error.value == LastFailure(attempts, ALL_FAILED))
  {
    FramesShowViews(encode, decode, Payloads(attempts, ALL_FAILED));
    ShowAttempts(BLANK, attempts, ALL_FAILED);
    assert BLANK.response + Said(attempts) == Said(attempts);
  }

  lemma {:induction false} SaidUntil(attempts: seq<Attempt>, k: nat)
    requires k < |attempts| && attempts[k].failure.None?
    requires forall i :: 0 <= i < k ==> attempts[i].failure.Some?
    ensures |Said(attempts)| >= |Concat(attempts[k].chunks)|
    ensures (forall i :: 0 <= i < k ==> Concat(attempts[i].chunks) == "") ==>
      Said(attempts) == Concat(attempts[k].chunks)
    ensures |Said(attempts)| == |Concat(attempts[k].chunks)| ==> forall i :: 0 <= i < k ==>
      Concat(attempts[i].chunks) == ""
  {
    if k > 0 {
      SaidUntil(attempts[1..], k - 1);
      forall i | 0 < i < k
        ensures Concat(attempts[i].chunks) == Concat(attempts[1..][i - 1].chunks)
      {
      }
      assert (forall i :: 0 <= i < k ==> Concat(attempts[i].chunks) == "") ==>
        forall i :: 0 <= i < k - 1 ==> Concat(attempts[1..][i].chunks) == "";
    }
  }

  /** After a fallback the screen shows just the successful model's answer only if the failed ones said nothing. */
  lemma CleanAnswerIff(encode: Encoder, decode: Decoder, attempts: seq<Attempt>, k: nat)
    requires Codec(encode, decode)
    requires k < |attempts| && attempts[k].failure.None? && forall i :: 0 <= i < k ==> attempts[i].failure.Some?
    ensures var shown := Shown(decode, Frames(Encoded(encode, Payloads(attempts, ALL_FAILED))), false);
      shown.response == Concat(attempts[k].chunks) <==> forall i :: 0 <= i < k ==> Concat(attempts[i].chunks) == ""
  {
    ScreenShowsTheAttempts(encode, decode, attempts);
    SaidUntil(attempts, k);
  }

  // ----- What single frames and failures show -----

  lemma OneEventShown(e: Event)
    ensures ShowAll(BLANK, [e]) == Show(BLANK, e)
  {
    assert [e][..0] == [];
  }

  lemma FrameParses(decode: Decoder, json: string)
    requires CleanJson(json)
    ensures Parse(decode, "data: " + json + "\n\n").events
         == [if decode(json).Some? then decode(json).value else Fields("", false, "Malformed streaming payload")]
  {
    hide Parse, StripChars;
    var line := "data: " + json;
    assert line[6..] == json && "data: " <= line;
    StripFacts(json, IsJsSpace);
    LineIsRead(decode, line, "");
    NothingToParse(decode);
    assert line + "\n\n" + "" == line + "\n\n";
  }

  /** A stream of one frame, whatever it decodes to, on a connection that ends or breaks after it. */
  lemma OneFrameShown(decode: Decoder, json: string, broken: bool)
    requires CleanJson(json)
    ensures var v := Shown(decode, "data: " + json + "\n\n", broken);
      match decode(json)
      case None => v == View("", Some("Malformed streaming payload"), true)
      case Some(Null) => v == View("", Some("Unable to stream AI response"), true)
      case Some(Fields(chunk, done, error)) =>
        if error != "" then v == View("", Some(error), true)
        else if done then v == View(chunk, None, true)
        else if broken then v == View(chunk, Some("Unable to stream AI response"), true)
        else v == View(chunk, None, false)
  {
    hide Parse, ShowAll;
    FrameParses(decode, json);
    var e := if decode(json).Some? then decode(json).value else Fields("", false, "Malformed streaming payload");
    OneEventShown(e);
    if e.Fields? {
      assert "" + e.chunk == e.chunk;
    }
  }

  lemma {:induction false} LastFailureIsLast(attempts: seq<Attempt>, last: string)
    requires attempts != [] && forall i :: 0 <= i < |attempts| ==> attempts[i].failure.Some?
    ensures LastFailure(attempts, last) == attempts[|attempts| - 1].failure.value
  {
    var rest := attempts[1..];
    if rest != [] {
      assert rest[|rest| - 1] == attempts[|attempts| - 1];
      LastFailureIsLast(rest, attempts[0].failure.value);
    }
  }

  /** When every model failed, the screen shows the last model's message, or no error when that message is empty. */
  lemma LastMessageShown(encode: Encoder, decode: Decoder, attempts: seq<Attempt>)
    requires Codec(encode, decode)
    requires attempts != [] && forall i :: 0 <= i < |attempts| ==> attempts[i].failure.Some?
    ensures var message := attempts[|attempts| - 1].failure.value;
      Shown(decode, Frames(Encoded(encode, Payloads(attempts, ALL_FAILED))), false).error
        == if message == "" then None else Some(message)
  {
    hide Shown, Frames, Encoded, Payloads, Said, LastFailure;
    ScreenShowsTheAttempts(encode, decode, attempts);
    LastFailureIsLast(attempts, ALL_FAILED);
  }
}
