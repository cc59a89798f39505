/** Whole runs: the C++ firmware beside the firmware model, on the same ticks and framed lines. */
module CppRuns {
  import opened Common
  import opened Codec
  import opened CppParsing
  import opened CppProtocol
  import opened Decimal
  import opened Firmware
  import opened FirmwareRuns
  import opened Millis
  import opened Tokens
  import opened Wire

  /** At a true time in milliseconds: a watchdog tick, or a tick followed by a framed line. */
  datatype Input = TickAt(now: int) | LineAt(now: int, line: string)

  predicate Framed(input: Input) {
    input.LineAt? ==> |input.line| <= MAX_FRAME && AllPrintable(input.line)
  }

  predicate InOrder(inputs: seq<Input>) {
    forall i, j :: 0 <= i < j < |inputs| ==> inputs[i].now <= inputs[j].now
  }

  function ModelStep(cfg: Config, m: Machine, input: Input): Machine {
    match input
    case TickAt(now) => Tick(m, Seconds(now))
    case LineAt(now, line) => HandleFrame(cfg, m, line, Seconds(now)).0
  }

  predicate Steps(cfg: Config, m: Machine, input: Input, after: Machine) {
    after == ModelStep(cfg, m, input)
  }

  /** The model's states before each input and at the end. */
  predicate IsModelRun(cfg: Config, inputs: seq<Input>, states: seq<Machine>) {
    && |states| == |inputs| + 1
    && states[0] == Initial(cfg)
    && forall k {:trigger Steps(cfg, states[k], inputs[k], states[k + 1])} ::
         0 <= k < |inputs| ==> Steps(cfg, states[k], inputs[k], states[k + 1])
  }

  function ModelAnswer(cfg: Config, m: Machine, input: Input): Response
    requires input.LineAt?
  {
    HandleFrame(cfg, m, input.line, Seconds(input.now)).1
  }

  /** Every armed deadline is looked at within 2^31 ms of passing. */
  predicate Timely(inputs: seq<Input>, states: seq<Machine>)
    requires |states| == |inputs| + 1
  {
    forall k :: 0 <= k < |inputs| ==> InHalf(states[k], inputs[k])
  }

  predicate InHalf(m: Machine, input: Input) {
    m.deadline.Some? ==> Seconds(input.now) < m.deadline.value + Seconds(HALF)
  }

  predicate Diverges(line: string) {
    EmptyNameNumbered(Split(line)) || RangeBeforeInteger(Split(line))
  }

  /** A framed line's effect on the model, through the C++ reading of it. */
  lemma LineThroughCpp(cfg: Config, m: Machine, line: string, now: real)
    requires |line| <= MAX_FRAME && AllPrintable(line)
    ensures var (after, response) := HandleFrame(cfg, m, line, now);
            match CppOutcome(Split(line))
            case Accepted(command) => (after, response) == Handle(cfg, m, command, now)
            case Refused(n, code) =>
              && after == Tick(m, now)
              && response.Error?
              && (response == Error(n, code) <==> !Diverges(line))
  {
    FramedText(line);
    ReadingsAgreeExactly(Split(line));
  }

  lemma HandleAfterTick(cfg: Config, m: Machine, command: Command, now: real)
    ensures Tick(Tick(m, now), now) == Tick(m, now)
    ensures Handle(cfg, Tick(m, now), command, now) == Handle(cfg, m, command, now)
  {
  }

  lemma CommandMovesDeadline(cfg: Config, m: Machine, command: Command, now: real)
    requires ValidConfig(cfg) && Inv(cfg, m)
    ensures var after := Handle(cfg, m, command, now).0;
            Inv(cfg, after) && (after.deadline in {None, m.deadline, Some(now + cfg.timeout)})
  {
    HandleKeepsInv(cfg, m, command, now);
    OutputsAfterCommand(cfg, m, command, now);
  }

  lemma LineMovesDeadline(cfg: Config, m: Machine, line: string, now: real)
    requires ValidConfig(cfg) && Inv(cfg, m)
    ensures var after := HandleFrame(cfg, m, line, now).0;
            Inv(cfg, after) && (after.deadline in {None, m.deadline, Some(now + cfg.timeout)})
  {
    match ParseCommand(line)
    case Ok(command) => CommandMovesDeadline(cfg, m, command, now);
    case Err(_) => TickKeepsInv(cfg, m, now);
  }

  /** The armed deadline is no further ahead of a moment than one timeout. */
  ghost predicate Near(cfg: Config, m: Machine, moment: int) {
    Inv(cfg, m) && (m.deadline.Some? ==> m.deadline.value <= Seconds(moment) + cfg.timeout)
  }

  lemma LineStaysNear(cfg: Config, m: Machine, line: string, now: int, before: int)
    requires ValidConfig(cfg) && Near(cfg, m, before) && before <= now
    ensures Near(cfg, HandleFrame(cfg, m, line, Seconds(now)).0, now)
  {
    LineMovesDeadline(cfg, m, line, Seconds(now));
  }

  lemma TickStaysNear(cfg: Config, m: Machine, now: int, before: int)
    requires Near(cfg, m, before) && before <= now
    ensures Near(cfg, Tick(m, Seconds(now)), now)
  {
    TickKeepsInv(cfg, m, Seconds(now));
  }

  lemma StepStaysNear(cfg: Config, m: Machine, input: Input, before: int)
    requires ValidConfig(cfg) && Near(cfg, m, before) && before <= input.now
    ensures Near(cfg, ModelStep(cfg, m, input), input.now)
  {
    if input.LineAt? {
      LineStaysNear(cfg, m, input.line, input.now, before);
    } else {
      TickStaysNear(cfg, m, input.now, before);
    }
  }

  method Fill(line: string) returns (buffer: array<char>)
    requires |line| <= MAX_FRAME && AllPrintable(line)
    ensures fresh(buffer) && CStringAt(buffer[..], 0, line)
  {
    buffer := new char[64](i => NUL);
    for i := 0 to |line|
      invariant forall j :: 0 <= j < i ==> buffer[j] == line[j]
      invariant forall j :: i <= j < 64 ==> buffer[j] == NUL
    {
      buffer[i] := line[i];
    }
    assert forall j :: 0 <= j < |line| ==> Printable(line[j]);
  }

  method StepCpp(state: ProtocolState, input: Input, ghost m: Machine) returns (reply: string)
    requires state.Sim(m) && Inv(state.cfg, m) && Framed(input)
    requires m.deadline.Some? ==> state.deadlineMs - HALF <= input.now < state.deadlineMs + HALF
    modifies state
    ensures state.Sim(ModelStep(state.cfg, m, input))
    ensures input.LineAt? && !Diverges(input.line) ==> reply == state.text(ModelAnswer(state.cfg, m, input))
  {
    var nowMs := Reading(input.now);
    ghost var ticked := Tick(m, Seconds(input.now));
    var result := state.TickWatchdog(nowMs, input.now, m);
    reply := "";
    if input.LineAt? {
      LineThroughCpp(state.cfg, m, input.line, Seconds(input.now));
      if CppOutcome(Split(input.line)).Accepted? {
        HandleAfterTick(state.cfg, m, CppOutcome(Split(input.line)).command, Seconds(input.now));
      }
      var buffer := Fill(input.line);
      result := state.HandleLine(buffer, nowMs, input.line, input.now, ticked);
      reply := result.response;
    }
  }

  /** One input of a run: the deadline is near enough for the 32-bit comparison on both sides. */
  method StepTimely(state: ProtocolState, input: Input, ghost m: Machine, ghost after: Machine, ghost before: int)
    returns (reply: string)
    requires state.Sim(m) && Near(state.cfg, m, before) && before <= input.now && Framed(input)
    requires InHalf(m, input) && Steps(state.cfg, m, input, after)
    modifies state
    ensures state.Sim(after) && Near(state.cfg, after, input.now)
    ensures input.LineAt? && !Diverges(input.line) ==> reply == state.text(ModelAnswer(state.cfg, m, input))
  {
    if m.deadline.Some? {
      assert Seconds(state.deadlineMs) <= Seconds(before) + Seconds(60000);
    }
    StepStaysNear(state.cfg, m, input, before);
    reply := StepCpp(state, input, m);
  }

  /** The C++ answer to an input is the model's, unless the line diverges. */
  ghost predicate AnsweredAlike(text: Response -> string, cfg: Config, m: Machine, input: Input, reply: string) {
    input.LineAt? && !Diverges(input.line) ==> reply == text(ModelAnswer(cfg, m, input))
  }

  /** The run is one the board can follow: framed lines, in order of time, with every deadline looked at. */
  predicate Followable(cfg: Config, inputs: seq<Input>, states: seq<Machine>) {
    && IsModelRun(cfg, inputs, states) && InOrder(inputs) && Timely(inputs, states)
    && forall k :: 0 <= k < |inputs| ==> Framed(inputs[k])
  }

  lemma FollowableAt(cfg: Config, inputs: seq<Input>, states: seq<Machine>, k: nat)
    requires Followable(cfg, inputs, states) && k < |inputs|
    ensures Steps(cfg, states[k], inputs[k], states[k + 1]) && InHalf(states[k], inputs[k]) && Framed(inputs[k])
    ensures k > 0 ==> inputs[k - 1].now <= inputs[k].now
  {
  }

  /** The k-th input, from a state that was near at the input before it. */
  method StepRun(state: ProtocolState, inputs: seq<Input>, ghost states: seq<Machine>, k: nat) returns (reply: string)
    requires Followable(state.cfg, inputs, states) && k < |inputs| && state.Sim(states[k])
    requires Near(state.cfg, states[k], inputs[if k == 0 then 0 else k - 1].now)
    modifies state
    ensures state.Sim(states[k + 1]) && Near(state.cfg, states[k + 1], inputs[k].now)
    ensures AnsweredAlike(state.text, state.cfg, states[k], inputs[k], reply)
  {
    FollowableAt(state.cfg, inputs, states, k);
    reply := StepTimely(state, inputs[k], states[k], states[k + 1], inputs[if k == 0 then 0 else k - 1].now);
  }

  method RunBoth(state: ProtocolState, inputs: seq<Input>, ghost states: seq<Machine>) returns (replies: seq<string>)
    requires ValidConfig(state.cfg) && state.Sim(Initial(state.cfg)) && Followable(state.cfg, inputs, states)
    modifies state
    ensures state.Sim(states[|inputs|]) && |replies| == |inputs|
    ensures forall k :: 0 <= k < |inputs| ==> AnsweredAlike(state.text, state.cfg, states[k], inputs[k], replies[k])
  {
    replies := [];
    InitialInv(state.cfg);
    for k := 0 to |inputs|
      invariant state.Sim(states[k]) && |replies| == k
      invariant inputs != [] ==> Near(state.cfg, states[k], inputs[if k == 0 then 0 else k - 1].now)
      invariant forall j :: 0 <= j < k ==> AnsweredAlike(state.text, state.cfg, states[j], inputs[j], replies[j])
    {
      var reply := StepRun(state, inputs, states, k);
      replies := replies + [reply];
    }
  }

  /**
   From power-on, on any timely run: the C++ state stays related to the model's after every input,
   and every line outside the two divergent families is answered with the same text.
   */
  method RunCpp(cfg: Config, timeoutMs: uint32, inputs: seq<Input>, ghost states: seq<Machine>)
    returns (state: ProtocolState, replies: seq<string>)
    requires ValidConfig(cfg) && 0 < timeoutMs <= 60000 && cfg.timeout == Seconds(timeoutMs as int)
    requires Followable(cfg, inputs, states)
    ensures state.Sim(states[|inputs|])
    ensures |replies| == |inputs|
    ensures forall k :: 0 <= k < |inputs| && inputs[k].LineAt? && !Diverges(inputs[k].line) ==>
              replies[k] == ResponseText(ModelAnswer(cfg, states[k], inputs[k]))
  {
    state := new ProtocolState(cfg, timeoutMs);
    replies := RunBoth(state, inputs, states);
    forall k | 0 <= k < |inputs| && inputs[k].LineAt? && !Diverges(inputs[k].line)
      ensures replies[k] == ResponseText(ModelAnswer(cfg, states[k], inputs[k]))
    {
      assert AnsweredAlike(state.text, cfg, states[k], inputs[k], replies[k]);
      assert state.text(ModelAnswer(cfg, states[k], inputs[k])) == ResponseText(ModelAnswer(cfg, states[k], inputs[k]));
    }
  }
}
