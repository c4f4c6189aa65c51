/**
 The streaming completion client (`src/utils/aiService.ts`): it assembles the
 chat request, checks the response, and turns the newline-delimited event
 stream into content fragments. The network is the parameter `fetch`, the
 response body is the sequence of already-decoded text chunks the reader
 delivers, and `JSON.parse(payload).choices[0].delta.content` is the parameter
 `decode`.
 */
module AIService {
  import opened Wrappers
  import opened Text
  import opened AIStore

  datatype Role = System | User | Assistant

  datatype APIMessage = APIMessage(role: Role, content: string)

  /** The instructions sent first in every request. */
  const SystemPrompt: string :=
    "\nYou are an expert in Mermaid.js. \n" +
    "Your task is to generate valid Mermaid diagrams based on user requests.\n" +
    "Rules:\n" +
    "1. Output ONLY the Mermaid code inside a markdown block like ```mermaid ... ```.\n" +
    "2. Do not include explanations unless requested.\n" +
    "3. If the user asks to modify an existing diagram, output the full updated code.\n" +
    "4. Use the \"graph TD\" or \"sequenceDiagram\" syntax by default unless specified otherwise.\n" +
    "5. Do not output any markdown formatting outside of the code block.\n"

  const ContextHead: string := "Current Diagram Code:\n```mermaid\n"
  const ContextTail: string := "\n```"

  /** The system message that hands the current diagram to the model. */
  function ContextMessage(currentCode: string): APIMessage {
    APIMessage(System, ContextHead + currentCode + ContextTail)
  }

  /** The message list sent: the prompt, the diagram, then the caller's messages. */
  function RequestMessages(messages: seq<APIMessage>, currentCode: string): seq<APIMessage> {
    [APIMessage(System, SystemPrompt), ContextMessage(currentCode)] + messages
  }

  /** What goes over the wire: POST to `{baseUrl}/chat/completions` with a bearer
      token and a body `{model, messages, stream: true}`. */
  datatype ChatRequest = ChatRequest(url: string, authorization: string, model: string,
                                     messages: seq<APIMessage>, stream: bool)

  function BuildRequest(messages: seq<APIMessage>, config: AIProvider, currentCode: string): ChatRequest {
    ChatRequest(config.baseUrl + "/chat/completions", "Bearer " + config.apiKey, config.model,
                RequestMessages(messages, currentCode), true)
  }

  /** The request lists the prompt, then the diagram wrapped in its fenced
      context message, then the caller's messages in their own order. */
  lemma RequestMessagesOrder(messages: seq<APIMessage>, currentCode: string)
    ensures var r := RequestMessages(messages, currentCode);
      && |r| == |messages| + 2
      && r[0].role == System && r[0].content == SystemPrompt
      && r[1].role == System && StartsWith(r[1].content, ContextHead) && EndsWith(r[1].content, ContextTail)
      && r[1].content[|ContextHead|..|r[1].content| - |ContextTail|] == currentCode
      && r[2..] == messages
  {
    var c := ContextHead + currentCode + ContextTail;
    assert c[..|ContextHead|] == ContextHead;
    assert c[|c| - |ContextTail|..] == ContextTail;
    assert c[|ContextHead|..|c| - |ContextTail|] == currentCode;
  }

  /** The diagram can be read back from the context message: different diagrams
      give different messages. */
  lemma ContextMessageInjective(a: string, b: string)
    requires ContextMessage(a) == ContextMessage(b)
    ensures a == b
  {
    var ca, cb := ContextHead + a + ContextTail, ContextHead + b + ContextTail;
    assert |a| == |b|;
    assert a == ca[|ContextHead|..|ContextHead| + |a|];
    assert b == cb[|ContextHead|..|ContextHead| + |b|];
  }

  // ---------------------------------------------------------------------------
  // Transport
  // ---------------------------------------------------------------------------

  /** A thrown value: an `Error` object, or a bare string. */
  datatype ErrorValue = ErrorObject(message: string) | Raw(value: string)

  /** How the body reader stopped: it reported `done`, or its read rejected
      (a network failure, or the abort of the request). */
  datatype ReadEnd = ReadDone | ReadRejected(error: ErrorValue)

  datatype Body = Body(chunks: seq<string>, end: ReadEnd)

  datatype FetchResult =
    | Responded(ok: bool, status: nat, text: string, body: Option<Body>)
    | FetchRejected(error: ErrorValue)

  /** `JSON.parse(payload)` followed by `choices[0]?.delta?.content`: the parse
      or the lookup throws, the content is missing, or it is a string. */
  datatype Delta = Malformed | NoContent | Content(text: string)

  datatype StreamEnd = Finished | Threw(error: ErrorValue)

  /** Everything the generator yields, then how it ends. */
  datatype StreamRun = StreamRun(fragments: seq<string>, end: StreamEnd)

  function ApiErrorMessage(status: nat, text: string): string {
    "API Error: " + NatToString(status) + " - " + text
  }

  const NoBodyMessage: string := "No response body"

  // ---------------------------------------------------------------------------
  // Framing
  // ---------------------------------------------------------------------------

  /** What one complete line is. */
  datatype Frame = Blank | DoneMarker | Data(payload: string) | Unexpected

  const DataPrefix: string := "data:"
  const DoneLine: string := "data: [DONE]"
  const DonePayload: string := "[DONE]"

  /** `replace(/^data:\s?/, '')` after the prefix: at most one whitespace. */
  function DropOneWhitespace(s: string): string {
    if s != [] && IsWhitespace(s[0]) then s[1..] else s
  }

  /** The classification of one line, on its trimmed text. */
  function Classify(line: string): Frame {
    ClassifyTrimmed(Trim(line))
  }

  /** The classification of a trimmed line `t`. */
  function ClassifyTrimmed(t: string): Frame {
    if t == [] then Blank
    else if t == DoneLine then DoneMarker
    else if StartsWith(t, DataPrefix) then
      var payload := Trim(DropOneWhitespace(t[|DataPrefix|..]));
      if payload == DonePayload then DoneMarker else Data(payload)
    else Unexpected
  }

  /** What one line yields: the delta content of a data line when it is a
      non-empty string, nothing otherwise (a parse error is swallowed). */
  function LineFragments(line: string, decode: string -> Delta): (r: seq<string>)
    ensures |r| <= 1 && (r != [] ==> r[0] != [])
  {
    match Classify(line)
    case Data(payload) =>
      (match decode(payload)
       case Content(t) => if t != [] then [t] else []
       case _ => [])
    case _ => []
  }

  /** LineFragments as a function value. */
  function LineYield(decode: string -> Delta): string -> seq<string> {
    line => LineFragments(line, decode)
  }

  /** What a run of lines yields, each line taken once, in order. */
  function Collect(lines: seq<string>, each: string -> seq<string>): seq<string> {
    if lines == [] then []
    else Collect(lines[..|lines| - 1], each) + each(Last(lines))
  }

  /** The fragments of a run of lines. */
  function FragmentsOf(lines: seq<string>, decode: string -> Delta): seq<string> {
    Collect(lines, LineYield(decode))
  }

  /** The lines of `text` that a newline has completed; the text after the last
      newline is not among them. */
  function CompleteLines(text: string): seq<string> {
    var pieces := Split(text, '\n');
    pieces[..|pieces| - 1]
  }

  /** The specification of `streamChatCompletion`: the error checks come before
      any fragment; a delivered body yields the fragments of the complete lines of
      everything received, however it was cut into chunks. */
  function StreamResult(fetched: FetchResult, decode: string -> Delta): StreamRun {
    match fetched
    case FetchRejected(e) => StreamRun([], Threw(e))
    case Responded(ok, status, text, body) =>
      if !ok then StreamRun([], Threw(ErrorObject(ApiErrorMessage(status, text))))
      else if body.None? then StreamRun([], Threw(ErrorObject(NoBodyMessage)))
      else
        var received := Concat(body.value.chunks);
        StreamRun(FragmentsOf(CompleteLines(received), decode),
                  if body.value.end.ReadDone? then Finished else Threw(body.value.end.error))
  }

  // ---------------------------------------------------------------------------
  // The client
  // ---------------------------------------------------------------------------

  /** `streamChatCompletion`: the read loop keeps the incomplete tail of the text
      in `buffer`, and classifies each line as soon as a newline completes it. */
  method StreamChatCompletion(messages: seq<APIMessage>, config: AIProvider, currentCode: string,
                              fetch: ChatRequest -> FetchResult, decode: string -> Delta)
    returns (run: StreamRun)
    ensures run == StreamResult(fetch(BuildRequest(messages, config, currentCode)), decode)
  {
    var response := fetch(BuildRequest(messages, config, currentCode));
    if response.FetchRejected? {
      return StreamRun([], Threw(response.error));
    }
    if !response.ok {
      return StreamRun([], Threw(ErrorObject(ApiErrorMessage(response.status, response.text))));
    }
    if response.body.None? {
      return StreamRun([], Threw(ErrorObject(NoBodyMessage)));
    }
    var fragments := ReadLines(response.body.value.chunks, decode);
    var end := if response.body.value.end.ReadDone? then Finished else Threw(response.body.value.end.error);
    run := StreamRun(fragments, end);
  }

  /** The read loop: `buffer` keeps the text after the last newline received so
      far, and each line a chunk completes is classified at once. */
  method ReadLines(chunks: seq<string>, decode: string -> Delta) returns (fragments: seq<string>)
    ensures fragments == FragmentsOf(CompleteLines(Concat(chunks)), decode)
  {
    var each := LineYield(decode);
    var buffer: string := [];
    fragments := [];
    ghost var received: string := [];
    ghost var processed: seq<string> := [];
    var i := 0;
    while i < |chunks|
      invariant 0 <= i <= |chunks|
      invariant received == Concat(chunks[..i])
      invariant Split(received, '\n') == processed + [buffer]
      invariant fragments == Collect(processed, each)
    {
      buffer, fragments, processed := ReadChunk(received, processed, buffer, fragments, chunks[i], each);
      ConcatSnoc(chunks, i);
      received := received + chunks[i];
      i := i + 1;
    }
    assert chunks[..i] == chunks;
    assert CompleteLines(received) == processed;
  }

  /** One chunk of the read loop: the buffered tail and the chunk are split on
      newlines, the last piece is kept as the new tail, and the lines before it
      are classified. `received` and `processed` are the text received and the
      complete lines seen so far. */
  method ReadChunk(ghost received: string, ghost processed: seq<string>, buffer: string,
                   fragments: seq<string>, chunk: string, each: string -> seq<string>)
    returns (buffer': string, fragments': seq<string>, ghost processed': seq<string>)
    requires Split(received, '\n') == processed + [buffer]
    requires fragments == Collect(processed, each)
    ensures Split(received + chunk, '\n') == processed' + [buffer']
    ensures fragments' == Collect(processed', each)
  {
    ReadStep(received, processed, buffer, chunk);
    var lines := Split(buffer + chunk, '\n');
    buffer' := lines[|lines| - 1];
    lines := lines[..|lines| - 1];
    CollectAppend(processed, lines, each);
    fragments' := YieldLines(fragments, lines, each);
    processed' := processed + lines;
  }

  /** The inner loop: each complete line in turn, appending what it yields. */
  method YieldLines(fragments: seq<string>, lines: seq<string>, each: string -> seq<string>)
    returns (r: seq<string>)
    ensures r == fragments + Collect(lines, each)
  {
    r := fragments;
    var j := 0;
    while j < |lines|
      invariant 0 <= j <= |lines|
      invariant r == fragments + Collect(lines[..j], each)
    {
      assert lines[..j + 1][..j] == lines[..j];
      r := r + each(lines[j]);
      j := j + 1;
    }
    assert lines[..j] == lines;
  }

  /** One read: if the text so far splits into the processed lines and the
      buffer, the text with the next chunk splits into the processed lines and the
      pieces of buffer-plus-chunk. */
  lemma ChunkStep(received: string, processed: seq<string>, buffer: string, chunk: string)
    requires Split(received, '\n') == processed + [buffer]
    ensures Split(received + chunk, '\n') == processed + Split(buffer + chunk, '\n')
  {
    var sc := Split(chunk, '\n');
    assert buffer == Split(received, '\n')[|processed|];
    SplitPiecesFree(received, '\n');
    SplitFree(buffer, '\n');
    SplitAppend(received, chunk, '\n');
    SplitAppend(buffer, chunk, '\n');
    FuseSnoc(processed, buffer, sc);
  }

  /** ChunkStep, in the shape of the loop: the new lines and the new buffer. */
  lemma ReadStep(received: string, processed: seq<string>, buffer: string, chunk: string)
    requires Split(received, '\n') == processed + [buffer]
    ensures var pieces := Split(buffer + chunk, '\n');
      Split(received + chunk, '\n') == (processed + pieces[..|pieces| - 1]) + [pieces[|pieces| - 1]]
  {
    ChunkStep(received, processed, buffer, chunk);
    var pieces := Split(buffer + chunk, '\n');
    assert pieces == pieces[..|pieces| - 1] + [pieces[|pieces| - 1]];
  }

  // ---------------------------------------------------------------------------
  // Properties
  // ---------------------------------------------------------------------------

  /** Collecting consecutive runs of lines gives the consecutive runs of what
      they yield. */
  lemma {:induction false} CollectAppend(a: seq<string>, b: seq<string>, each: string -> seq<string>)
    ensures Collect(a + b, each) == Collect(a, each) + Collect(b, each)
  {
    if b == [] {
      assert a + b == a;
    } else {
      var init := b[..|b| - 1];
      CollectAppend(a, init, each);
      assert (a + b)[..|a + b| - 1] == a + init;
      assert Last(a + b) == Last(b);
      assert Collect(a + b, each) == Collect(a + init, each) + each(Last(b));
      assert Collect(b, each) == Collect(init, each) + each(Last(b));
    }
  }

  /** If no line yields an empty string, nothing collected is empty. */
  lemma {:induction false} CollectNonEmpty(lines: seq<string>, each: string -> seq<string>)
    requires forall line, k :: 0 <= k < |each(line)| ==> each(line)[k] != []
    ensures forall k :: 0 <= k < |Collect(lines, each)| ==> Collect(lines, each)[k] != []
  {
    if lines != [] {
      CollectNonEmpty(lines[..|lines| - 1], each);
    }
  }

  /** The fragments of consecutive runs of lines are the consecutive runs of
      fragments. */
  lemma FragmentsAppend(a: seq<string>, b: seq<string>, decode: string -> Delta)
    ensures FragmentsOf(a + b, decode) == FragmentsOf(a, decode) + FragmentsOf(b, decode)
  {
    CollectAppend(a, b, LineYield(decode));
  }

  /** No fragment is empty. */
  lemma FragmentsNonEmpty(lines: seq<string>, decode: string -> Delta)
    ensures forall k :: 0 <= k < |FragmentsOf(lines, decode)| ==> FragmentsOf(lines, decode)[k] != []
  {
    CollectNonEmpty(lines, LineYield(decode));
  }

  /** A line that yields nothing (blank, a `[DONE]` marker, a line that is not a
      data line, a payload that does not parse or has no content) neither stops
      nor alters what the lines after it yield. */
  lemma SilentLineTransparent(before: seq<string>, line: string, after: seq<string>, decode: string -> Delta)
    requires LineFragments(line, decode) == []
    ensures FragmentsOf(before + [line] + after, decode) == FragmentsOf(before, decode) + FragmentsOf(after, decode)
  {
    CollectSilent(before, line, after, LineYield(decode));
  }

  lemma CollectSilent(before: seq<string>, line: string, after: seq<string>, each: string -> seq<string>)
    requires each(line) == []
    ensures Collect(before + [line] + after, each) == Collect(before, each) + Collect(after, each)
  {
    CollectAppend(before + [line], after, each);
    assert (before + [line])[..|before|] == before;
  }

  /** Text after the last newline is never classified: appending text without a
      newline does not change the complete lines. */
  lemma UnterminatedTailIgnored(text: string, tail: string)
    requires '\n' !in tail
    ensures CompleteLines(text + tail) == CompleteLines(text)
  {
    SplitFree(tail, '\n');
    SplitAppend(text, tail, '\n');
  }

  /** The complete lines, each followed by its newline, and then the text after
      the last newline, are exactly the text received. */
  lemma CompleteLinesReassemble(text: string)
    ensures var p := Split(text, '\n');
      '\n' !in Last(p) && Join(CompleteLines(text) + [Last(p)], '\n') == text
  {
    var p := Split(text, '\n');
    assert CompleteLines(text) + [Last(p)] == p;
    JoinSplit(text, '\n');
  }

  /** After `data:`, optional whitespace and a payload that ends in a
      non-whitespace character, the payload is what remains. */
  lemma PayloadAfterPrefix(w: string, payload: string)
    requires AllWhitespace(w)
    requires payload != [] && !IsWhitespace(payload[0]) && !IsWhitespace(payload[|payload| - 1])
    ensures Trim(DropOneWhitespace(w + payload)) == payload
  {
    var w' := if w != [] then w[1..] else w;
    assert DropOneWhitespace(w + payload) == w' + payload + [];
    TrimPadded(w', payload, []);
  }

  /** A `data:` line, trimmed, starts with `data:` and carries what follows. */
  lemma DataText(w2: string, payload: string)
    ensures var x := DataPrefix + w2 + payload;
      StartsWith(x, DataPrefix) && x[|DataPrefix|..] == w2 + payload
  {
    var x := DataPrefix + w2 + payload;
    assert x[..|DataPrefix|] == DataPrefix;
    assert x[|DataPrefix|..] == w2 + payload;
  }

  /** Any `data:` line whose payload is `[DONE]`, whatever whitespace surrounds
      it, is a done marker. */
  lemma DoneMarkerVariants(w1: string, w2: string, w3: string)
    requires AllWhitespace(w1) && AllWhitespace(w2) && AllWhitespace(w3)
    ensures Classify(w1 + DataPrefix + w2 + DonePayload + w3) == DoneMarker
  {
    var x := DataPrefix + w2 + DonePayload;
    assert w1 + DataPrefix + w2 + DonePayload + w3 == w1 + x + w3;
    TrimPadded(w1, x, w3);
    DoneTrimmed(w2);
  }

  lemma DoneTrimmed(w2: string)
    requires AllWhitespace(w2)
    ensures ClassifyTrimmed(DataPrefix + w2 + DonePayload) == DoneMarker
  {
    DataText(w2, DonePayload);
    PayloadAfterPrefix(w2, DonePayload);
  }

  /** A line that trims to `data:`, whitespace and a payload other than the
      done marker is not the done line. */
  lemma NotDoneLine(w2: string, payload: string)
    requires AllWhitespace(w2)
    requires payload != [] && !IsWhitespace(payload[0])
    requires payload != DonePayload
    ensures DataPrefix + w2 + payload != DoneLine
  {
    var x := DataPrefix + w2 + payload;
    if |x| == |DoneLine| {
      if |w2| == 0 {
        assert x[5] == payload[0] && DoneLine[5] == ' ';
      } else if |w2| == 1 {
        assert x[6..] == payload && DoneLine[6..] == DonePayload;
      } else {
        assert x[6] == w2[1] && DoneLine[6] == '[';
      }
    }
  }

  /** A `data:` line, whatever whitespace surrounds it, is classified as data
      carrying its payload, unless the payload is the done marker. */
  lemma DataLineClassified(w1: string, w2: string, payload: string, w3: string)
    requires AllWhitespace(w1) && AllWhitespace(w2) && AllWhitespace(w3)
    requires payload != [] && !IsWhitespace(payload[0]) && !IsWhitespace(payload[|payload| - 1])
    requires payload != DonePayload
    ensures Classify(w1 + DataPrefix + w2 + payload + w3) == Data(payload)
  {
    var x := DataPrefix + w2 + payload;
    assert w1 + DataPrefix + w2 + payload + w3 == w1 + x + w3;
    TrimPadded(w1, x, w3);
    NotDoneLine(w2, payload);
    DataText(w2, payload);
    PayloadAfterPrefix(w2, payload);
  }

  /** A `data:` line carrying a payload yields exactly the payload's content when
      that is a non-empty string, and nothing when the payload does not parse or
      has no content. */
  lemma DataLineYield(w1: string, w2: string, payload: string, w3: string, decode: string -> Delta)
    requires AllWhitespace(w1) && AllWhitespace(w2) && AllWhitespace(w3)
    requires payload != [] && !IsWhitespace(payload[0]) && !IsWhitespace(payload[|payload| - 1])
    requires payload != DonePayload
    ensures LineFragments(w1 + DataPrefix + w2 + payload + w3, decode) ==
      (if decode(payload).Content? && decode(payload).text != [] then [decode(payload).text] else [])
  {
    DataLineClassified(w1, w2, payload, w3);
    DataFrameYield(w1 + DataPrefix + w2 + payload + w3, payload, decode);
  }

  /** A line classified as data yields the content of its payload, if any. */
  lemma DataFrameYield(line: string, payload: string, decode: string -> Delta)
    requires Classify(line) == Data(payload)
    ensures LineFragments(line, decode) ==
      (if decode(payload).Content? && decode(payload).text != [] then [decode(payload).text] else [])
  {
  }

  /** A line whose trimmed text does not start with `data:` yields nothing. */
  lemma UnexpectedLineSilent(line: string, decode: string -> Delta)
    requires !StartsWith(Trim(line), DataPrefix)
    ensures LineFragments(line, decode) == []
  {
  }

  /** Every failure of the request itself ends the stream before any fragment. */
  lemma FailuresYieldNothing(fetched: FetchResult, decode: string -> Delta)
    requires fetched.FetchRejected? || !fetched.ok || fetched.body.None?
    ensures StreamResult(fetched, decode).fragments == []
    ensures StreamResult(fetched, decode).end.Threw?
    ensures fetched.Responded? && !fetched.ok ==>
      StreamResult(fetched, decode).end.error == ErrorObject(ApiErrorMessage(fetched.status, fetched.text))
    ensures fetched.Responded? && fetched.ok ==>
      StreamResult(fetched, decode).end.error == ErrorObject(NoBodyMessage)
  {
  }
}
