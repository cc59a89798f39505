/**
 The C++ firmware on a byte stream: framer, framing errors, line handling and watchdog together,
 beside the stream model. The sketch looks at the watchdog and handles a line at clock readings of
 its own, so a deadline can pass in between; exactly what then differs is stated at the end.
 */
module CppStream {
  import opened Common
  import opened Codec
  import opened CppParsing
  import opened CppProtocol
  import opened CppRuns
  import opened Decimal
  import opened Firmware
  import opened Framing
  import opened Millis
  import opened RuntimeLoop
  import opened Tokens
  import opened Wire

  /** At a true time in milliseconds: the watchdog is looked at, or a byte arrives. */
  datatype Signal = LookAt(now: int) | ByteAt(now: int, value: char)

  function Logged(signal: Signal): RuntimeLoop.Input {
    match signal
    case LookAt(now) => Tock(Seconds(now))
    case ByteAt(now, value) => Byte(Seconds(now), value)
  }

  function Log(signals: seq<Signal>): seq<RuntimeLoop.Input> {
    if signals == [] then [] else Log(signals[..|signals| - 1]) + [Logged(signals[|signals| - 1])]
  }

  predicate Moves(cfg: Config, s: Stream, signal: Signal, after: Stream) {
    after == Advance(cfg, s, Logged(signal)).0
  }

  /** The stream model's states before each signal and at the end. */
  predicate IsStreamRun(cfg: Config, signals: seq<Signal>, states: seq<Stream>) {
    && |states| == |signals| + 1
    && states[0] == Stream(Initial(cfg), FRESH)
    && forall k {:trigger Moves(cfg, states[k], signals[k], states[k + 1])} ::
         0 <= k < |signals| ==> Moves(cfg, states[k], signals[k], states[k + 1])
  }

  /** What the byte completes, if anything. */
  function Completed(s: Stream, signal: Signal): seq<Framing.Event> {
    match signal
    case LookAt(_) => []
    case ByteAt(_, value) => Step(MAX_FRAME, s.framer, value).1
  }

  predicate CompletesLine(s: Stream, signal: Signal) {
    Completed(s, signal) != [] && Completed(s, signal)[0].Line?
  }

  /** The outputs are on although the deadline has passed: nothing has looked at the watchdog since. */
  predicate UnseenExpiry(m: Machine, now: real) {
    m.enabled && m.deadline.Some? && m.deadline.value <= now
  }

  /** An armed deadline is looked at within 2^31 ms of passing, and has not passed unseen when a line is handled. */
  predicate OnTime(s: Stream, signal: Signal) {
    match signal
    case LookAt(now) => s.machine.deadline.Some? ==> Seconds(now) < s.machine.deadline.value + Seconds(HALF)
    case ByteAt(now, _) => CompletesLine(s, signal) ==> !UnseenExpiry(s.machine, Seconds(now))
  }

  /** The byte completes a line that the two firmwares read differently. */
  predicate Divides(s: Stream, signal: Signal) {
    CompletesLine(s, signal) && Diverges(Completed(s, signal)[0].text)
  }

  /** The model's reply to a signal, rendered. */
  ghost function Reply(cfg: Config, s: Stream, signal: Signal, text: Response -> string): string {
    var events := Completed(s, signal);
    if events == [] then "" else text(Respond(cfg, s.machine, events[0], Seconds(signal.now)).1) + "\r\n"
  }

  // ---- one signal ----

  lemma BuffersStayClean(cfg: Config, s: Stream, signal: Signal)
    requires |s.framer.buffer| <= MAX_FRAME && AllPrintable(s.framer.buffer)
    ensures CompletesLine(s, signal) ==>
              |Completed(s, signal)[0].text| <= MAX_FRAME && AllPrintable(Completed(s, signal)[0].text)
  {
  }

  lemma RespondStaysNear(cfg: Config, m: Machine, event: Framing.Event, now: int, before: int)
    requires ValidConfig(cfg) && Near(cfg, m, before) && before <= now
    ensures Near(cfg, Respond(cfg, m, event, Seconds(now)).0, now)
  {
    if event.Line? {
      LineStaysNear(cfg, m, event.text, now, before);
    }
  }

  lemma SignalStaysNear(cfg: Config, s: Stream, signal: Signal, before: int)
    requires ValidConfig(cfg) && Near(cfg, s.machine, before) && before <= signal.now
    ensures Near(cfg, Advance(cfg, s, Logged(signal)).0.machine, signal.now)
  {
    match signal
    case LookAt(now) => TickStaysNear(cfg, s.machine, now, before);
    case ByteAt(now, _) =>
      var events := Completed(s, signal);
      if events != [] {
        RespondStaysNear(cfg, s.machine, events[0], now, before);
      }
  }

  lemma ResponseIsNotEmpty(response: Response, text: Response -> string)
    requires Renders(text)
    ensures text(response) != ""
  {
    assert ResponseText(response) != "";
  }

  /** The queued response with its line end; nothing is queued for an empty one. */
  method Queue(result: StepResult) returns (reply: string)
    ensures reply == if result.response == "" then "" else result.response + "\r\n"
  {
    reply := if result.response == "" then "" else result.response + "\r\n";
  }

  /** Answer what the framer reports: a line through the protocol, or a framing error. */
  method Answer(state: ProtocolState, framer: ProtocolFramer, event: FrameEvent, nowMs: uint32,
                ghost now: int, ghost m: Machine, ghost reported: Framing.Event)
    returns (result: StepResult)
    requires state.Sim(m) && Inv(state.cfg, m) && nowMs == Reading(now)
    requires framer.Valid() && framer.length == 0 && framer.Reports(event, [reported])
    requires reported.Line? ==>
               |reported.text| <= MAX_FRAME && AllPrintable(reported.text) && !UnseenExpiry(m, Seconds(now))
    modifies state, framer.payload
    ensures framer.Valid() && framer.Abstract() == old(framer.Abstract())
    ensures state.Sim(Respond(state.cfg, m, reported, Seconds(now)).0)
    ensures !(reported.Line? && Diverges(reported.text)) ==>
              result.response == state.text(Respond(state.cfg, m, reported, Seconds(now)).1)
  {
    if event == EventLine {
      LineThroughCpp(state.cfg, m, reported.text, Seconds(now));
      result := state.HandleLine(framer.payload, nowMs, reported.text, now, m);
    } else {
      var reply := FormatError(0, if event == EventTooLong then LineTooLong else NonAscii, state.text);
      result := StepResult(ActionNone, reply);
    }
  }

  /** One byte: the framer takes it, and what it reports is answered at the clock reading it comes at. */
  method TakeByte(state: ProtocolState, framer: ProtocolFramer, value: char, nowMs: uint32,
                  ghost now: int, ghost s: Stream)
    returns (reply: string)
    requires state.Sim(s.machine) && Inv(state.cfg, s.machine) && nowMs == Reading(now)
    requires framer.Valid() && framer.Abstract() == s.framer && OnTime(s, ByteAt(now, value))
    modifies state, framer, framer.payload
    ensures framer.Valid()
    ensures var after := Advance(state.cfg, s, Byte(Seconds(now), value)).0;
            state.Sim(after.machine) && framer.Abstract() == after.framer
    ensures !Divides(s, ByteAt(now, value)) ==> reply == Reply(state.cfg, s, ByteAt(now, value), state.text)
  {
    BuffersStayClean(state.cfg, s, ByteAt(now, value));
    ghost var events := Completed(s, ByteAt(now, value));
    var event := framer.FeedByte(value);
    reply := "";
    if event != EventNone {
      ResponseIsNotEmpty(Respond(state.cfg, s.machine, events[0], Seconds(now)).1, state.text);
      assert events == [events[0]];
      var result := Answer(state, framer, event, nowMs, now, s.machine, events[0]);
      reply := Queue(result);
    }
  }

  /** One signal of a run: a look at the watchdog is near enough for the 32-bit comparison on both sides. */
  method TakeSignal(state: ProtocolState, framer: ProtocolFramer, signal: Signal,
                    ghost s: Stream, ghost after: Stream, ghost before: int)
    returns (reply: string)
    requires state.Sim(s.machine) && framer.Valid() && framer.Abstract() == s.framer
    requires Near(state.cfg, s.machine, before) && before <= signal.now && OnTime(s, signal)
    requires Moves(state.cfg, s, signal, after)
    modifies state, framer, framer.payload
    ensures state.Sim(after.machine) && framer.Valid() && framer.Abstract() == after.framer
    ensures Near(state.cfg, after.machine, signal.now)
    ensures !Divides(s, signal) ==> reply == Reply(state.cfg, s, signal, state.text)
  {
    SignalStaysNear(state.cfg, s, signal, before);
    var nowMs := Reading(signal.now);
    match signal {
      case LookAt(now) =>
        if s.machine.deadline.Some? {
          assert Seconds(state.deadlineMs) <= Seconds(before) + Seconds(60000);
        }
        var _ := state.TickWatchdog(nowMs, now, s.machine);
        reply := "";
      case ByteAt(now, value) =>
        reply := TakeByte(state, framer, value, nowMs, now, s);
    }
  }

  // ---- whole runs ----

  predicate InTurn(signals: seq<Signal>) {
    forall i, j :: 0 <= i < j < |signals| ==> signals[i].now <= signals[j].now
  }

  predicate AllOnTime(signals: seq<Signal>, states: seq<Stream>)
    requires |states| == |signals| + 1
  {
    forall k :: 0 <= k < |signals| ==> OnTime(states[k], signals[k])
  }

  /** The board's reply to a signal is the model's, unless the line is read differently. */
  ghost predicate RepliesAlike(text: Response -> string, cfg: Config, s: Stream, signal: Signal, reply: string) {
    !Divides(s, signal) ==> reply == Reply(cfg, s, signal, text)
  }

  /** No line of the run is read differently. */
  predicate Undivided(signals: seq<Signal>, states: seq<Stream>)
    requires |states| == |signals| + 1
  {
    forall k :: 0 <= k < |signals| ==> !Divides(states[k], signals[k])
  }

  /** The run is one the board can follow: in order of time, with every deadline looked at in time. */
  predicate Followed(cfg: Config, signals: seq<Signal>, states: seq<Stream>) {
    IsStreamRun(cfg, signals, states) && InTurn(signals) && AllOnTime(signals, states)
  }

  lemma FollowedAt(cfg: Config, signals: seq<Signal>, states: seq<Stream>, k: nat)
    requires Followed(cfg, signals, states) && k < |signals|
    ensures Moves(cfg, states[k], signals[k], states[k + 1]) && OnTime(states[k], signals[k])
    ensures k > 0 ==> signals[k - 1].now <= signals[k].now
  {
  }

  /** The k-th signal, from a state that was near at the signal before it. */
  method TakeNextSignal(state: ProtocolState, framer: ProtocolFramer, signals: seq<Signal>,
                        ghost states: seq<Stream>, k: nat)
    returns (reply: string)
    requires Followed(state.cfg, signals, states) && k < |signals|
    requires state.Sim(states[k].machine) && framer.Valid() && framer.Abstract() == states[k].framer
    requires Near(state.cfg, states[k].machine, signals[if k == 0 then 0 else k - 1].now)
    modifies state, framer, framer.payload
    ensures state.Sim(states[k + 1].machine) && framer.Valid() && framer.Abstract() == states[k + 1].framer
    ensures Near(state.cfg, states[k + 1].machine, signals[k].now)
    ensures RepliesAlike(state.text, state.cfg, states[k], signals[k], reply)
  {
    FollowedAt(state.cfg, signals, states, k);
    reply := TakeSignal(state, framer, signals[k], states[k], states[k + 1], signals[if k == 0 then 0 else k - 1].now);
  }

  method RunBoth(state: ProtocolState, framer: ProtocolFramer, signals: seq<Signal>, ghost states: seq<Stream>)
    returns (replies: seq<string>)
    requires ValidConfig(state.cfg) && state.Sim(Initial(state.cfg)) && framer.Valid() && framer.Abstract() == FRESH
    requires Followed(state.cfg, signals, states)
    modifies state, framer, framer.payload
    ensures state.Sim(states[|signals|].machine) && framer.Valid() && framer.Abstract() == states[|signals|].framer
    ensures |replies| == |signals|
    ensures forall k :: 0 <= k < |signals| ==> RepliesAlike(state.text, state.cfg, states[k], signals[k], replies[k])
  {
    replies := [];
    InitialInv(state.cfg);
    for k := 0 to |signals|
      invariant state.Sim(states[k].machine) && framer.Valid() && framer.Abstract() == states[k].framer
      invariant signals != [] ==> Near(state.cfg, states[k].machine, signals[if k == 0 then 0 else k - 1].now)
      invariant |replies| == k
      invariant forall j :: 0 <= j < k ==> RepliesAlike(state.text, state.cfg, states[j], signals[j], replies[j])
    {
      var reply := TakeNextSignal(state, framer, signals, states, k);
      replies := replies + [reply];
    }
  }

  lemma ReplyIsModels(cfg: Config, s: Stream, signal: Signal, text: Response -> string)
    requires Renders(text)
    ensures Reply(cfg, s, signal, text) == First(Advance(cfg, s, Logged(signal)).1)
    ensures |Advance(cfg, s, Logged(signal)).1| <= 1
  {
    var events := Completed(s, signal);
    if events != [] {
      var response := Respond(cfg, s.machine, events[0], Seconds(signal.now)).1;
      assert ResponseText(response) == text(response);
    }
  }

  lemma LogNext(signals: seq<Signal>, k: nat)
    requires k < |signals|
    ensures Log(signals[..k + 1]) == Log(signals[..k]) + [Logged(signals[k])]
  {
    assert signals[..k + 1][..k] == signals[..k];
  }

  lemma {:induction false} StatesAreStream(cfg: Config, signals: seq<Signal>, states: seq<Stream>, k: nat)
    requires IsStreamRun(cfg, signals, states) && k <= |signals|
    ensures states[k] == StreamAfter(cfg, Initial(cfg), Log(signals[..k]))
  {
    if k > 0 {
      StatesAreStream(cfg, signals, states, k - 1);
      LogNext(signals, k - 1);
      LogSnoc(cfg, Initial(cfg), Log(signals[..k - 1]), Logged(signals[k - 1]));
      assert Moves(cfg, states[k - 1], signals[k - 1], states[k]);
    }
  }

  lemma RepliesNext(cfg: Config, signals: seq<Signal>, states: seq<Stream>, k: nat)
    requires IsStreamRun(cfg, signals, states) && k < |signals|
    ensures Replies(cfg, Initial(cfg), Log(signals[..k + 1])) ==
            Replies(cfg, Initial(cfg), Log(signals[..k])) + Advance(cfg, states[k], Logged(signals[k])).1
  {
    StatesAreStream(cfg, signals, states, k);
    LogNext(signals, k);
    LogSnoc(cfg, Initial(cfg), Log(signals[..k]), Logged(signals[k]));
  }

  lemma FlattenNext(replies: seq<string>, k: nat, sent: seq<string>, frames: seq<string>)
    requires k < |replies| && Flatten(replies[..k]) == Flatten(sent)
    requires replies[k] == First(frames) && |frames| <= 1
    ensures Flatten(replies[..k + 1]) == Flatten(sent + frames)
  {
    AppendReply("", sent, frames, Flatten(replies[..k]));
    PrefixNext(replies, k);
    FlattenSnoc(replies[..k], replies[k]);
  }

  /** Each reply is the model's frame for its signal, or nothing if it has none. */
  predicate FramesOf(cfg: Config, signals: seq<Signal>, states: seq<Stream>, replies: seq<string>)
    requires |states| == |signals| + 1 && |replies| == |signals|
  {
    forall j :: 0 <= j < |signals| ==>
      && replies[j] == First(Advance(cfg, states[j], Logged(signals[j])).1)
      && |Advance(cfg, states[j], Logged(signals[j])).1| <= 1
  }

  /** The replies signal by signal are the stream's replies in order. */
  lemma {:induction false} RepliesAreStream(cfg: Config, signals: seq<Signal>, states: seq<Stream>,
                                            replies: seq<string>, k: nat)
    requires IsStreamRun(cfg, signals, states) && k <= |signals| == |replies|
    requires FramesOf(cfg, signals, states, replies)
    ensures Flatten(replies[..k]) == Flatten(Replies(cfg, Initial(cfg), Log(signals[..k])))
  {
    if k > 0 {
      RepliesAreStream(cfg, signals, states, replies, k - 1);
      RepliesNext(cfg, signals, states, k - 1);
      FlattenNext(replies, k - 1, Replies(cfg, Initial(cfg), Log(signals[..k - 1])),
                  Advance(cfg, states[k - 1], Logged(signals[k - 1])).1);
    }
  }

  /**
   From power-on, on any bytes at any times, however cut into lines: if every deadline is looked at
   within 2^31 ms and none passes unseen before a line, the C++ state and framer stay related to the
   stream model's, every reply outside the divergent lines is the model's, and with no such line the
   bytes sent are the stream model's.
   */
  method RunBytes(cfg: Config, timeoutMs: uint32, signals: seq<Signal>, ghost states: seq<Stream>)
    returns (state: ProtocolState, framer: ProtocolFramer, replies: seq<string>)
    requires ValidConfig(cfg) && 0 < timeoutMs <= 60000 && cfg.timeout == Seconds(timeoutMs as int)
    requires Followed(cfg, signals, states)
    ensures state.Sim(states[|signals|].machine) && framer.Valid() && framer.Abstract() == states[|signals|].framer
    ensures states[|signals|] == StreamAfter(cfg, Initial(cfg), Log(signals)) && |replies| == |signals|
    ensures forall k :: 0 <= k < |signals| && !Divides(states[k], signals[k]) ==>
              replies[k] == First(Advance(cfg, states[k], Logged(signals[k])).1)
    ensures Undivided(signals, states) ==> Flatten(replies) == Flatten(Replies(cfg, Initial(cfg), Log(signals)))
  {
    state := new ProtocolState(cfg, timeoutMs);
    framer := new ProtocolFramer();
    replies := RunBoth(state, framer, signals, states);
    forall k | 0 <= k < |signals|
      ensures |Advance(cfg, states[k], Logged(signals[k])).1| <= 1
      ensures !Divides(states[k], signals[k]) ==> replies[k] == First(Advance(cfg, states[k], Logged(signals[k])).1)
    {
      assert RepliesAlike(state.text, cfg, states[k], signals[k], replies[k]);
      ReplyIsModels(cfg, states[k], signals[k], state.text);
    }
    assert signals[..|signals|] == signals && replies[..|replies|] == replies;
    StatesAreStream(cfg, signals, states, |signals|);
    if Undivided(signals, states) {
      RepliesAreStream(cfg, signals, states, replies, |signals|);
    }
  }

  // ---- a deadline that passes unseen ----

  /** The watchdog is looked at earlier at the very moment of signal `k`. */
  predicate LookedAtThen(signals: seq<Signal>, k: nat)
    requires k < |signals|
  {
    exists j :: 0 <= j < k && signals[j] == LookAt(signals[k].now)
  }

  /** The run looks at the watchdog at the moment of every line it completes. */
  predicate LooksAtLines(signals: seq<Signal>, states: seq<Stream>)
    requires |states| == |signals| + 1
  {
    forall k :: 0 <= k < |signals| && CompletesLine(states[k], signals[k]) ==> LookedAtThen(signals, k)
  }

  /** Every look comes within 2^31 ms of an armed deadline. */
  predicate LooksInHalf(signals: seq<Signal>, states: seq<Stream>)
    requires |states| == |signals| + 1
  {
    forall k :: 0 <= k < |signals| && signals[k].LookAt? ==> OnTime(states[k], signals[k])
  }

  /** The moment of a look passes nothing unseen, whatever bytes come at that moment. */
  lemma SignalSeesAll(cfg: Config, s: Stream, signal: Signal)
    requires ValidConfig(cfg) && Inv(cfg, s.machine)
    requires signal.LookAt? || !UnseenExpiry(s.machine, Seconds(signal.now))
    ensures var after := Advance(cfg, s, Logged(signal)).0;
            Inv(cfg, after.machine) && !UnseenExpiry(after.machine, Seconds(signal.now))
  {
    TickKeepsInv(cfg, s.machine, Seconds(signal.now));
    if CompletesLine(s, signal) {
      LineMovesDeadline(cfg, s.machine, Completed(s, signal)[0].text, Seconds(signal.now));
    }
  }

  lemma MovesAt(cfg: Config, signals: seq<Signal>, states: seq<Stream>, k: nat)
    requires IsStreamRun(cfg, signals, states) && k < |signals|
    ensures states[k + 1] == Advance(cfg, states[k], Logged(signals[k])).0
  {
    assert Moves(cfg, states[k], signals[k], states[k + 1]);
  }

  lemma {:induction false} StreamKeepsInv(cfg: Config, signals: seq<Signal>, states: seq<Stream>, k: nat)
    requires ValidConfig(cfg) && IsStreamRun(cfg, signals, states) && k <= |signals|
    ensures Inv(cfg, states[k].machine)
  {
    if k == 0 {
      InitialInv(cfg);
    } else {
      StreamKeepsInv(cfg, signals, states, k - 1);
      MovesAt(cfg, signals, states, k - 1);
      AdvanceKeepsInv(cfg, states[k - 1], Logged(signals[k - 1]));
    }
  }

  lemma SeenNext(cfg: Config, signals: seq<Signal>, states: seq<Stream>, k: nat)
    requires ValidConfig(cfg) && IsStreamRun(cfg, signals, states) && k < |signals|
    requires signals[k].LookAt? || !UnseenExpiry(states[k].machine, Seconds(signals[k].now))
    ensures !UnseenExpiry(states[k + 1].machine, Seconds(signals[k].now))
  {
    StreamKeepsInv(cfg, signals, states, k);
    MovesAt(cfg, signals, states, k);
    SignalSeesAll(cfg, states[k], signals[k]);
  }

  lemma {:induction false} SeenSinceLook(cfg: Config, signals: seq<Signal>, states: seq<Stream>, j: nat, k: nat)
    requires ValidConfig(cfg) && IsStreamRun(cfg, signals, states) && j < k <= |signals| && signals[j].LookAt?
    requires forall i :: j < i < k ==> signals[i].now == signals[j].now
    ensures !UnseenExpiry(states[k].machine, Seconds(signals[j].now))
  {
    if k - 1 > j {
      SeenSinceLook(cfg, signals, states, j, k - 1);
    }
    SeenNext(cfg, signals, states, k - 1);
  }

  /**
   Looking at the watchdog at the moment of every line, as tests/cpp/protocol_harness.cpp does, is
   enough: such a run passes no deadline unseen, and `RunBytes` applies to it.
   */
  lemma LookingIsOnTime(cfg: Config, signals: seq<Signal>, states: seq<Stream>)
    requires ValidConfig(cfg) && IsStreamRun(cfg, signals, states) && InTurn(signals)
    requires LooksInHalf(signals, states) && LooksAtLines(signals, states)
    ensures Followed(cfg, signals, states)
  {
    forall k | 0 <= k < |signals|
      ensures OnTime(states[k], signals[k])
    {
      if CompletesLine(states[k], signals[k]) {
        assert LookedAtThen(signals, k);
        var j :| 0 <= j < k && signals[j] == LookAt(signals[k].now);
        assert forall i :: j < i < k ==> signals[j].now <= signals[i].now <= signals[k].now;
        SeenSinceLook(cfg, signals, states, j, k);
      }
    }
  }

  /** The answer to the command depends on whether the outputs are on. */
  predicate AsksOutputs(cfg: Config, m: Machine, command: Command) {
    match RouteOf(m, command)
    case Fresh => command.Status? || command.Center? || (command.Set? && InLimits(cfg, command.pan, command.tilt))
    case Repeated => command.Status? || (IsMotion(command) && m.last.value.response.Ack?)
    case _ => false
  }

  /**
   If a deadline passed unseen before a line, the board's answer differs from the model's exactly
   for the commands whose answer depends on the outputs.
   */
  lemma UnseenExpiryShows(cfg: Config, m: Machine, command: Command, now: real)
    requires ValidConfig(cfg) && Inv(cfg, m) && UnseenExpiry(m, now)
    ensures HandleTicked(cfg, m, command, now).1 != Handle(cfg, m, command, now).1 <==> AsksOutputs(cfg, m, command)
  {
  }

  /** In particular a SET is then carried out and keeps the outputs on, where the model refuses it and has them off. */
  lemma LateSetIsCarriedOut(cfg: Config, m: Machine, command: Command, now: real)
    requires ValidConfig(cfg) && Inv(cfg, m) && UnseenExpiry(m, now)
    requires command.Set? && RouteOf(m, command).Fresh? && InLimits(cfg, command.pan, command.tilt)
    ensures var (board, answer) := HandleTicked(cfg, m, command, now);
            board.enabled && answer == Ack(command.sequence, AckSet, command.pan, command.tilt)
    ensures var (model, answer) := Handle(cfg, m, command, now);
            !model.enabled && answer == Error(command.sequence, NotEnabled)
  {
  }

  /** The firmware after power-on, HELLO 1 and ENABLE 2, both at time zero. */
  function Enabled(cfg: Config): Machine {
    Handle(cfg, Handle(cfg, Initial(cfg), Hello(1), 0.0).0, Enable(2), 0.0).0
  }

  /** It happens: the next SET, handled as the timeout runs out and before anything looks. */
  lemma LateSetExample(cfg: Config, pan: Degree, tilt: Degree)
    requires ValidConfig(cfg) && InLimits(cfg, pan, tilt)
    ensures var (board, answer) := HandleTicked(cfg, Enabled(cfg), Set(3, pan, tilt), cfg.timeout);
            board.enabled && answer == Ack(3, AckSet, pan, tilt)
    ensures var (model, answer) := Handle(cfg, Enabled(cfg), Set(3, pan, tilt), cfg.timeout);
            !model.enabled && answer == Error(3, NotEnabled)
  {
    InitialInv(cfg);
    var greeted := Handle(cfg, Initial(cfg), Hello(1), 0.0).0;
    HandleKeepsInv(cfg, Initial(cfg), Hello(1), 0.0);
    HandleKeepsInv(cfg, greeted, Enable(2), 0.0);
    LateSetIsCarriedOut(cfg, Enabled(cfg), Set(3, pan, tilt), cfg.timeout);
  }
}
