/**
 Incremental line framing. The byte automaton is related to a description of whole lines: split
 the stream at LF and classify every segment by its first fault.
 */
module Framing {
  import opened Common
  import opened Codec
  import opened Tokens
  import opened Wire

  datatype Fault = TooLong | Encoding

  datatype Event = Line(text: string) | Issue(fault: Fault)

  // ---- whole lines ----

  /** Length of the longest printable prefix. */
  function PrintableRun(s: string): (run: nat)
    ensures run <= |s| && AllPrintable(s[..run])
    ensures run < |s| ==> !Printable(s[run])
  {
    if s == "" then 0
    else
      var front := s[..|s| - 1];
      var run := PrintableRun(front);
      assert s[..run] == front[..run];
      if run == |front| && Printable(s[|s| - 1]) then |s| else run
  }

  /**
   What a complete line means: its first fault is an over-long printable run, or else the first
   byte that is neither printable nor a CR ending the line.
   */
  function Classify(maximum: nat, line: string): Event {
    var run := PrintableRun(line);
    if run > maximum then Issue(TooLong)
    else if run == |line| then Line(line)
    else if run == |line| - 1 && line[run] == '\r' then Line(line[..run])
    else Issue(Encoding)
  }

  /** The bytes after the last LF. */
  function Tail(data: string): string {
    if data == "" then ""
    else if data[|data| - 1] == '\n' then ""
    else Tail(data[..|data| - 1]) + [data[|data| - 1]]
  }

  /** The segments ended by an LF, in order, without it. */
  function Lines(data: string): seq<string> {
    if data == "" then []
    else
      var front := data[..|data| - 1];
      if data[|data| - 1] == '\n' then Lines(front) + [Tail(front)] else Lines(front)
  }

  function ClassifyAll(maximum: nat, lines: seq<string>): (events: seq<Event>)
    ensures |events| == |lines|
    ensures forall i :: 0 <= i < |lines| ==> events[i] == Classify(maximum, lines[i])
  {
    seq(|lines|, i requires 0 <= i < |lines| => Classify(maximum, lines[i]))
  }

  // ---- the automaton ----

  datatype State = State(buffer: string, discard: Option<Fault>, pendingCr: bool)

  const FRESH := State("", None, false)

  function Finish(state: State): Event {
    match state.discard
    case Some(fault) => Issue(fault)
    case None => Line(state.buffer)
  }

  function Step(maximum: nat, state: State, value: char): (State, seq<Event>) {
    if value == '\n' then (FRESH, [Finish(state)])
    else if state.discard.Some? then (state, [])
    else if state.pendingCr then (State("", Some(Encoding), false), [])
    else if value == '\r' then (state.(pendingCr := true), [])
    else if !Printable(value) then (State("", Some(Encoding), false), [])
    else if |state.buffer| >= maximum then (State("", Some(TooLong), false), [])
    else (state.(buffer := state.buffer + [value]), [])
  }

  function Feed(maximum: nat, state: State, data: string): (State, seq<Event>) {
    if data == "" then (state, [])
    else
      var (before, events) := Feed(maximum, state, data[..|data| - 1]);
      var (after, more) := Step(maximum, before, data[|data| - 1]);
      (after, events + more)
  }

  function FeedChunks(maximum: nat, state: State, chunks: seq<string>): (State, seq<Event>) {
    if chunks == [] then (state, [])
    else
      var (before, events) := FeedChunks(maximum, state, chunks[..|chunks| - 1]);
      var (after, more) := Feed(maximum, before, chunks[|chunks| - 1]);
      (after, events + more)
  }

  function Concat(chunks: seq<string>): string {
    if chunks == [] then "" else Concat(chunks[..|chunks| - 1]) + chunks[|chunks| - 1]
  }

  /** The state reached part-way through a line. */
  function Partial(maximum: nat, line: string): State {
    var run := PrintableRun(line);
    if run > maximum then State("", Some(TooLong), false)
    else if run == |line| then State(line, None, false)
    else if run == |line| - 1 && line[run] == '\r' then State(line[..run], None, true)
    else State("", Some(Encoding), false)
  }

  lemma StepPartial(maximum: nat, line: string, value: char)
    requires value != '\n'
    ensures Step(maximum, Partial(maximum, line), value) == (Partial(maximum, line + [value]), [])
  {
    assert (line + [value])[..|line|] == line;
    var run := PrintableRun(line);
    if run < |line| {
      assert (line + [value])[..run] == line[..run];
    }
  }

  /**
   From a fresh framer, the events are the classified lines of the stream and the state is that of
   the unfinished last line.
   */
  lemma {:induction false} FeedIsWholeLines(maximum: nat, data: string)
    ensures Feed(maximum, FRESH, data) == (Partial(maximum, Tail(data)), ClassifyAll(maximum, Lines(data)))
  {
    if data != "" {
      var front, value := data[..|data| - 1], data[|data| - 1];
      FeedIsWholeLines(maximum, front);
      if value == '\n' {
        assert Finish(Partial(maximum, Tail(front))) == Classify(maximum, Tail(front));
        assert ClassifyAll(maximum, Lines(data)) ==
               ClassifyAll(maximum, Lines(front)) + [Classify(maximum, Tail(front))];
      } else {
        StepPartial(maximum, Tail(front), value);
        assert ClassifyAll(maximum, Lines(front)) + [] == ClassifyAll(maximum, Lines(front));
      }
    }
  }

  lemma {:induction false} FeedAppend(maximum: nat, state: State, a: string, b: string)
    ensures var (middle, first) := Feed(maximum, state, a);
            var (last, second) := Feed(maximum, middle, b);
            Feed(maximum, state, a + b) == (last, first + second)
  {
    if b == "" {
      var first := Feed(maximum, state, a).1;
      assert a + b == a && first + [] == first;
    } else {
      var front := b[..|b| - 1];
      FeedAppend(maximum, state, a, front);
      assert (a + b)[..|a + b| - 1] == a + front;
      var (middle, first) := Feed(maximum, state, a);
      var (before, events) := Feed(maximum, middle, front);
      var more := Step(maximum, before, b[|b| - 1]).1;
      assert first + events + more == first + (events + more);
    }
  }

  /** Any chunking of a stream gives the events and the state of the whole stream. */
  lemma {:induction false} ChunkingIsIrrelevant(maximum: nat, chunks: seq<string>)
    ensures FeedChunks(maximum, FRESH, chunks) ==
            (Partial(maximum, Tail(Concat(chunks))), ClassifyAll(maximum, Lines(Concat(chunks))))
  {
    FeedIsWholeLines(maximum, Concat(chunks));
    if chunks != [] {
      var front := chunks[..|chunks| - 1];
      ChunkingIsIrrelevant(maximum, front);
      FeedIsWholeLines(maximum, Concat(front));
      FeedAppend(maximum, FRESH, Concat(front), chunks[|chunks| - 1]);
    }
  }

  /** A framer never holds more than its maximum, however it is fed. */
  lemma BufferStaysBounded(maximum: nat, data: string)
    ensures |Feed(maximum, FRESH, data).0.buffer| <= maximum
  {
    FeedIsWholeLines(maximum, data);
  }

  /** A framed line is printable and within the maximum. */
  lemma FramedLineIsClean(maximum: nat, line: string)
    requires Classify(maximum, line).Line?
    ensures |Classify(maximum, line).text| <= maximum && AllPrintable(Classify(maximum, line).text)
  {
    assert line[..|line|] == line;
  }

  // ---- LineFramer: the host's framer object ----

  class LineFramer {
    const maximum: nat
    var buffer: string
    var discard: Option<Fault>
    var pendingCr: bool

    function Abstract(): State
      reads this
    {
      State(buffer, discard, pendingCr)
    }

    constructor (maximum: nat)
      requires maximum > 0
      ensures this.maximum == maximum && Abstract() == FRESH
    {
      this.maximum := maximum;
      buffer, discard, pendingCr := "", None, false;
    }

    method Reset()
      modifies this
      ensures Abstract() == FRESH
    {
      buffer, discard, pendingCr := "", None, false;
    }

    method FinishLine() returns (event: Event)
      modifies this
      ensures event == Finish(old(Abstract())) && Abstract() == FRESH
    {
      if discard.Some? {
        event := Issue(discard.value);
      } else {
        event := Line(buffer);
      }
      Reset();
    }

    method FeedBytes(data: string) returns (events: seq<Event>)
      modifies this
      ensures (Abstract(), events) == Feed(maximum, old(Abstract()), data)
    {
      events := [];
      for i := 0 to |data|
        invariant (Abstract(), events) == Feed(maximum, old(Abstract()), data[..i])
      {
        assert data[..i + 1][..i] == data[..i] && events + [] == events;
        var value := data[i];
        if value == '\n' {
          var event := FinishLine();
          events := events + [event];
          continue;
        }
        if discard.Some? {
          continue;
        }
        if pendingCr {
          discard := Some(Encoding);
          pendingCr := false;
          buffer := "";
          continue;
        }
        if value == '\r' {
          pendingCr := true;
          continue;
        }
        if value < ' ' || value > '~' {
          discard := Some(Encoding);
          buffer := "";
          continue;
        }
        if |buffer| >= maximum {
          discard := Some(TooLong);
          buffer := "";
          continue;
        }
        buffer := buffer + [value];
      }
      assert data[..|data|] == data;
    }
  }

  // ---- ProtocolFramer: the firmware's fixed-buffer framer ----

  newtype uint8 = x: int | 0 <= x < 256

  const MAX_LINE_LENGTH: uint8 := 63

  datatype FrameDiscard = DiscardNone | DiscardTooLong | DiscardEncoding
  datatype FrameEvent = EventNone | EventLine | EventTooLong | EventEncoding

  function FaultOf(discard: FrameDiscard): Option<Fault> {
    match discard
    case DiscardNone => None
    case DiscardTooLong => Some(TooLong)
    case DiscardEncoding => Some(Encoding)
  }

  class ProtocolFramer {
    const payload: array<char>
    var length: uint8
    var pendingCr: bool
    var discardReason: FrameDiscard

    ghost predicate Valid()
      reads this, payload
    {
      payload.Length == 64 && length <= MAX_LINE_LENGTH && AllPrintable(payload[..length])
    }

    ghost function Abstract(): State
      reads this, payload
      requires Valid()
    {
      State(payload[..length], FaultOf(discardReason), pendingCr)
    }

    /** Whether the payload and the returned event report what the automaton reported. */
    ghost predicate Reports(event: FrameEvent, events: seq<Event>)
      reads this, payload
    {
      match event
      case EventNone => events == []
      case EventLine => |events| == 1 && events[0].Line? && CStringAt(payload[..], 0, events[0].text)
      case EventTooLong => events == [Issue(TooLong)]
      case EventEncoding => events == [Issue(Encoding)]
    }

    constructor ()
      ensures Valid() && fresh(payload) && Abstract() == FRESH
    {
      payload := new char[64];
      length, pendingCr, discardReason := 0, false, DiscardNone;
      new;
      payload[0] := NUL;
    }

    /** Every payload write is within the 64-byte buffer, and the step is the host framer's at 63. */
    method FeedByte(value: char) returns (event: FrameEvent)
      requires Valid()
      modifies this, payload
      ensures Valid()
      ensures Abstract() == Step(63, old(Abstract()), value).0
      ensures Reports(event, Step(63, old(Abstract()), value).1)
    {
      if value == '\n' {
        event := EventLine;
        if discardReason == DiscardTooLong {
          event := EventTooLong;
        } else if discardReason == DiscardEncoding {
          event := EventEncoding;
        } else {
          ghost var text := payload[..length];
          payload[length] := NUL;
          assert payload[..length] == text;
          assert forall j :: 0 <= j < |text| ==> Printable(text[j]) && payload[j] == text[j];
        }
        length, pendingCr, discardReason := 0, false, DiscardNone;
        return;
      }
      if discardReason != DiscardNone {
        return EventNone;
      }
      if pendingCr {
        length, pendingCr, discardReason := 0, false, DiscardEncoding;
        return EventNone;
      }
      if value == '\r' {
        pendingCr := true;
        return EventNone;
      }
      if value < ' ' || value > '~' {
        length, discardReason := 0, DiscardEncoding;
        return EventNone;
      }
      if length >= MAX_LINE_LENGTH {
        length, discardReason := 0, DiscardTooLong;
        return EventNone;
      }
      payload[length] := value;
      length := length + 1;
      assert payload[..length] == old(payload[..length]) + [value];
      return EventNone;
    }
  }
}
