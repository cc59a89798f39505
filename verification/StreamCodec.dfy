/**
 End-to-end codec: messages printed, concatenated, cut into arbitrary chunks, framed and parsed come
 back unchanged.
 */
module StreamCodec {
  import opened Common
  import opened Codec
  import opened Framing
  import opened Wire

  /** What precedes the LF when `text` is sent: commands end in LF, responses in CR LF. */
  function Body(text: string, crlf: bool): string {
    if crlf then text + "\r" else text
  }

  function Terminator(crlf: bool): string {
    if crlf then "\r\n" else "\n"
  }

  /** The stream that sends every text followed by its terminator. */
  function Assemble(texts: seq<string>, crlf: bool): string {
    if texts == [] then ""
    else Assemble(texts[..|texts| - 1], crlf) + (texts[|texts| - 1] + Terminator(crlf))
  }

  predicate Clean(text: string) {
    |text| <= MAX_FRAME && AllPrintable(text)
  }

  lemma {:induction false} WordJoinsTail(data: string, word: string)
    requires forall i :: 0 <= i < |word| ==> word[i] != '\n'
    ensures Lines(data + word) == Lines(data) && Tail(data + word) == Tail(data) + word
  {
    if word == "" {
      assert data + word == data && Tail(data) + word == Tail(data);
    } else {
      var front, c := word[..|word| - 1], word[|word| - 1];
      WordJoinsTail(data, front);
      assert (data + word)[..|data + word| - 1] == data + front;
      assert Tail(data) + front + [c] == Tail(data) + word;
    }
  }

  lemma LineEnds(data: string)
    ensures Lines(data + "\n") == Lines(data) + [Tail(data)] && Tail(data + "\n") == ""
  {
    assert (data + "\n")[..|data|] == data;
  }

  lemma CleanLine(text: string)
    requires Clean(text)
    ensures Classify(MAX_FRAME, text) == Line(text) == Classify(MAX_FRAME, text + "\r")
  {
    var cr := text + "\r";
    assert PrintableRun(text) == |text|;
    assert cr[..|text|] == text && cr[|text|] == '\r';
    assert PrintableRun(cr) == |text|;
  }

  /** A message adds one line to the stream and leaves nothing unfinished. */
  lemma OneMessage(data: string, text: string, crlf: bool)
    requires Clean(text) && Tail(data) == ""
    ensures Tail(data + (text + Terminator(crlf))) == ""
    ensures Lines(data + (text + Terminator(crlf))) == Lines(data) + [Body(text, crlf)]
  {
    var body := Body(text, crlf);
    assert forall i :: 0 <= i < |body| ==> body[i] != '\n';
    WordJoinsTail(data, body);
    LineEnds(data + body);
    StartsEmpty(body);
    EndsWithTerminator(data, text, crlf);
  }

  lemma StartsEmpty(s: string)
    ensures "" + s == s
  {
  }

  lemma EndsWithTerminator(data: string, text: string, crlf: bool)
    ensures data + (text + Terminator(crlf)) == data + Body(text, crlf) + "\n"
  {
  }

  lemma {:induction false} AssembledLines(texts: seq<string>, crlf: bool)
    requires forall i :: 0 <= i < |texts| ==> Clean(texts[i])
    ensures var lines := Lines(Assemble(texts, crlf));
            && |lines| == |texts|
            && forall i :: 0 <= i < |texts| ==> lines[i] == Body(texts[i], crlf)
    ensures Tail(Assemble(texts, crlf)) == ""
  {
    if texts != [] {
      var front := texts[..|texts| - 1];
      AssembledLines(front, crlf);
      OneMessage(Assemble(front, crlf), texts[|texts| - 1], crlf);
    }
  }

  /** Any chunking of assembled clean texts frames to exactly those texts, leaving nothing behind. */
  lemma ChunkedTexts(texts: seq<string>, crlf: bool, chunks: seq<string>)
    requires forall i :: 0 <= i < |texts| ==> Clean(texts[i])
    requires Concat(chunks) == Assemble(texts, crlf)
    ensures var (state, events) := FeedChunks(MAX_FRAME, FRESH, chunks);
            && state == FRESH
            && |events| == |texts|
            && forall i :: 0 <= i < |texts| ==> events[i] == Line(texts[i])
  {
    ChunkingIsIrrelevant(MAX_FRAME, chunks);
    AssembledLines(texts, crlf);
    forall i | 0 <= i < |texts|
      ensures Classify(MAX_FRAME, Body(texts[i], crlf)) == Line(texts[i])
    {
      CleanLine(texts[i]);
    }
  }

  function CommandTexts(commands: seq<Command>): (texts: seq<string>)
    ensures |texts| == |commands|
    ensures forall i :: 0 <= i < |texts| ==> texts[i] == CommandText(commands[i])
  {
    seq(|commands|, i requires 0 <= i < |commands| => CommandText(commands[i]))
  }

  function ResponseTexts(responses: seq<Response>): (texts: seq<string>)
    ensures |texts| == |responses|
    ensures forall i :: 0 <= i < |texts| ==> texts[i] == ResponseText(responses[i])
  {
    seq(|responses|, i requires 0 <= i < |responses| => ResponseText(responses[i]))
  }

  /** Commands survive the wire under any chunking. */
  lemma CommandStreamRoundTrip(commands: seq<Command>, chunks: seq<string>)
    requires Concat(chunks) == Assemble(CommandTexts(commands), false)
    ensures var (state, events) := FeedChunks(MAX_FRAME, FRESH, chunks);
            && state == FRESH
            && |events| == |commands|
            && forall i :: 0 <= i < |commands| ==>
                 events[i].Line? && ParseCommand(events[i].text) == Ok(commands[i])
  {
    var texts := CommandTexts(commands);
    forall i | 0 <= i < |commands|
      ensures Clean(texts[i]) && ParseCommand(texts[i]) == Ok(commands[i])
    {
      CommandTextFits(commands[i]);
      CommandRoundTrip(commands[i]);
    }
    ChunkedTexts(texts, false, chunks);
  }

  /** Responses that fit a frame survive the wire under any chunking. */
  lemma ResponseStreamRoundTrip(responses: seq<Response>, chunks: seq<string>)
    requires forall i :: 0 <= i < |responses| ==> |ResponseText(responses[i])| <= MAX_FRAME
    requires Concat(chunks) == Assemble(ResponseTexts(responses), true)
    ensures var (state, events) := FeedChunks(MAX_FRAME, FRESH, chunks);
            && state == FRESH
            && |events| == |responses|
            && forall i :: 0 <= i < |responses| ==>
                 events[i].Line? && ParseResponse(events[i].text) == Ok(responses[i])
  {
    var texts := ResponseTexts(responses);
    forall i | 0 <= i < |responses|
      ensures Clean(texts[i]) && ParseResponse(texts[i]) == Ok(responses[i])
    {
      ResponseRoundTrip(responses[i]);
    }
    ChunkedTexts(texts, true, chunks);
  }
}
