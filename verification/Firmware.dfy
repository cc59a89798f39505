/**
 The firmware's command, duplicate and watchdog rules as a function on states, and the host-side
 firmware object, which updates its fields in place and is proved against that function.
 The clock is an argument: every reading made while one command is handled has one value.
 */
module Firmware {
  import opened Common
  import opened Codec
  import opened Decimal
  import opened Tokens
  import opened Wire

  datatype Config = Config(
    panMin: Degree, panMax: Degree,
    tiltMin: Degree, tiltMax: Degree,
    neutralPan: Degree, neutralTilt: Degree,
    timeout: real)

  predicate ValidConfig(cfg: Config) {
    && cfg.panMin < cfg.panMax && cfg.panMin <= cfg.neutralPan <= cfg.panMax
    && cfg.tiltMin < cfg.tiltMax && cfg.tiltMin <= cfg.neutralTilt <= cfg.tiltMax
    && 0.0 < cfg.timeout <= 60.0
  }

  predicate InLimits(cfg: Config, pan: int, tilt: int) {
    cfg.panMin <= pan <= cfg.panMax && cfg.tiltMin <= tilt <= cfg.tiltMax
  }

  /** A command together with the response it was given. */
  datatype Memory = Memory(command: Command, response: Response)

  datatype Machine = Machine(
    enabled: bool,
    pan: Degree,
    tilt: Degree,
    watchdog: Watchdog,
    deadline: Option<real>,
    last: Option<Memory>,
    rejected: Option<Memory>)

  function Initial(cfg: Config): Machine {
    Machine(false, cfg.neutralPan, cfg.neutralTilt, Idle, None, None, None)
  }

  function Tick(m: Machine, now: real): Machine {
    if m.enabled && m.deadline.Some? && now >= m.deadline.value then
      m.(enabled := false, watchdog := Expired, deadline := None)
    else m
  }

  /** How the sequence rules treat a command, before it has any effect. */
  datatype Route =
    | NewSession      // HELLO
    | NoSession       // nothing but HELLO is accepted yet
    | Repeated        // retransmission of the last command
    | Conflicting     // the last number with other content
    | CachedRejection // retransmission of the cached rejected SET
    | CachedConflict  // its number with other content
    | OutOfOrder      // any other unexpected number
    | Fresh           // the expected successor

  function RouteOf(m: Machine, command: Command): Route {
    if command.Hello? then NewSession
    else if m.last.None? then NoSession
    else if command == m.last.value.command then Repeated
    else if command.sequence == m.last.value.command.sequence then Conflicting
    else if command.sequence == NextSequence(m.last.value.command.sequence) then Fresh
    else if m.rejected.None? || command.sequence != m.rejected.value.command.sequence then OutOfOrder
    else if command == m.rejected.value.command then CachedRejection
    else CachedConflict
  }

  function Arm(cfg: Config, m: Machine, now: real): Machine {
    m.(watchdog := Armed, deadline := Some(now + cfg.timeout))
  }

  function StatusOf(m: Machine, n: Sequence): Response {
    Report(n, m.enabled, m.pan, m.tilt, m.watchdog)
  }

  /** The effect of a command whose number is the expected one. */
  function Execute(cfg: Config, m: Machine, command: Command, now: real): (Machine, Response)
    requires !command.Hello?
  {
    var n := command.sequence;
    match command
    case Set(_, pan, tilt) =>
      if !InLimits(cfg, pan, tilt) then (m, Error(n, OutOfRange))
      else if !m.enabled then (m, Error(n, NotEnabled))
      else (Arm(cfg, m.(pan := pan, tilt := tilt), now), Ack(n, AckSet, pan, tilt))
    case Enable(_) =>
      var centered := m.(enabled := true, pan := cfg.neutralPan, tilt := cfg.neutralTilt);
      (Arm(cfg, centered, now), Ack(n, AckEnable, cfg.neutralPan, cfg.neutralTilt))
    case Disable(_) =>
      (m.(enabled := false, watchdog := Idle, deadline := None), Ack(n, AckDisable, m.pan, m.tilt))
    case Center(_) =>
      if !m.enabled then (m, Error(n, NotEnabled))
      else (m.(pan := cfg.neutralPan, tilt := cfg.neutralTilt),
            Ack(n, AckCenter, cfg.neutralPan, cfg.neutralTilt))
    case Status(_) =>
      (m, StatusOf(m, n))
  }

  /** The answer to a retransmission of the last command. */
  function Repeat(cfg: Config, m: Machine, command: Command, now: real): (Machine, Response)
    requires m.last.Some?
  {
    var answer := m.last.value.response;
    if command.Set? && answer.Error? then (m, answer)
    else if (command.Set? || command.Center? || command.Enable?) && !m.enabled then
      (m, Error(command.sequence, NotEnabled))
    else if command.Set? && answer.Ack? then (Arm(cfg, m, now), answer)
    else if command.Status? then (m, StatusOf(m, command.sequence))
    else (m, answer)
  }

  predicate CachedError(command: Command, response: Response) {
    command.Set? && response.Error? && (response.code == OutOfRange || response.code == NotEnabled)
  }

  /** The rejection kept for retries: the newest rejected SET, until its number is used again. */
  function Cache(kept: Option<Memory>, command: Command, response: Response): Option<Memory> {
    if CachedError(command, response) then Some(Memory(command, response))
    else if kept.Some? && kept.value.command.sequence == command.sequence then None
    else kept
  }

  function Remember(m: Machine, command: Command, response: Response): Machine {
    m.(last := Some(Memory(command, response)), rejected := Cache(m.rejected, command, response))
  }

  function Handle(cfg: Config, m: Machine, command: Command, now: real): (Machine, Response) {
    HandleTicked(cfg, Tick(m, now), command, now)
  }

  /** Handling a command once the watchdog has been looked at. */
  function HandleTicked(cfg: Config, m: Machine, command: Command, now: real): (Machine, Response) {
    var n := command.sequence;
    match RouteOf(m, command)
    case NewSession =>
      var ready := Ready(n, PROTOCOL_VERSION, FIRMWARE_VERSION);
      (Remember(m.(rejected := None), command, ready), ready)
    case NoSession => (m, Error(n, BadSequence))
    case Repeated => Repeat(cfg, m, command, now)
    case Conflicting => (m, Error(n, StaleSequence))
    case CachedRejection => (m, m.rejected.value.response)
    case CachedConflict => (m, Error(n, StaleSequence))
    case OutOfOrder => (m, Error(n, BadSequence))
    case Fresh =>
      var (after, response) := Execute(cfg, m, command, now);
      (Remember(after, command, response), response)
  }

  // ---- frames ----

  function CodeFor(error: ProtocolError): ErrorCode {
    match error
    case FrameTooLong => LineTooLong
    case FrameEncoding => NonAscii
    case BadCommandError => BadCommand
    case TokenCount => BadTokenCount
    case IntegerValue => BadInteger
    case SequenceValue => BadSequence
    case DegreeValue => OutOfRange
    case Malformed => BadCommand
  }

  /** The number an error can still be addressed to. */
  function BestEffortSequence(frame: string): ReplySequence {
    var tokens := Split(frame);
    if (exists i :: 0 <= i < |frame| && frame[i] as int > 127) || |tokens| < 2 then 0
    else
      match ParseInteger(tokens[1])
      case None => 0
      case Some(value) => if MIN_SEQUENCE <= value <= MAX_SEQUENCE then value else 0
  }

  function HandleFrame(cfg: Config, m: Machine, frame: string, now: real): (Machine, Response) {
    HandleParsed(cfg, m, ParseCommand(frame), BestEffortSequence(frame), now)
  }

  function HandleParsed(
    cfg: Config, m: Machine, parsed: Result<Command, ProtocolError>, fallback: ReplySequence, now: real
  ): (Machine, Response)
  {
    match parsed
    case Ok(command) => Handle(cfg, m, command, now)
    case Err(e) => (Tick(m, now), Error(fallback, CodeFor(e)))
  }

  // ---- what every state keeps ----

  /** The responses a command can be answered with when it is executed. */
  predicate Answers(cfg: Config, command: Command, response: Response) {
    && SequenceOf(response) == command.sequence
    && match command
       case Hello(_) => response.Ready? && |response.protocol| <= 7 && |response.firmware| <= 7
       case Set(_, pan, tilt) =>
         || (response == Ack(command.sequence, AckSet, pan, tilt) && InLimits(cfg, pan, tilt))
         || CachedError(command, response)
       case Center(_) =>
         response in {Ack(command.sequence, AckCenter, cfg.neutralPan, cfg.neutralTilt),
                      Error(command.sequence, NotEnabled)}
       case Enable(_) => response == Ack(command.sequence, AckEnable, cfg.neutralPan, cfg.neutralTilt)
       case Disable(_) => response.Ack? && response.acked == AckDisable
       case Status(_) => response.Report?
  }

  predicate OutputsInv(cfg: Config, m: Machine) {
    && InLimits(cfg, m.pan, m.tilt)
    && (m.enabled <==> m.watchdog.Armed?)
    && (m.enabled <==> m.deadline.Some?)
  }

  /** An acknowledgement names the pose the outputs have. */
  predicate Truthful(m: Machine, response: Response) {
    response.Ack? ==> response.pan == m.pan && response.tilt == m.tilt
  }

  predicate RejectedInv(cache: Option<Memory>) {
    cache.Some? ==>
      && CachedError(cache.value.command, cache.value.response)
      && SequenceOf(cache.value.response) == cache.value.command.sequence
  }

  predicate Inv(cfg: Config, m: Machine) {
    && OutputsInv(cfg, m)
    && (m.last.Some? ==> Answers(cfg, m.last.value.command, m.last.value.response) && Truthful(m, m.last.value.response))
    && (m.last.Some? && m.last.value.command.Disable? ==> !m.enabled)
    && RejectedInv(m.rejected)
    && (m.rejected.Some? ==> m.last.Some?)
  }

  lemma InitialInv(cfg: Config)
    requires ValidConfig(cfg)
    ensures Inv(cfg, Initial(cfg))
  {
  }

  lemma TickKeepsInv(cfg: Config, m: Machine, now: real)
    requires Inv(cfg, m)
    ensures Inv(cfg, Tick(m, now)) && Tick(Tick(m, now), now) == Tick(m, now)
  {
  }

  lemma ExecuteAnswers(cfg: Config, m: Machine, command: Command, now: real)
    requires ValidConfig(cfg) && OutputsInv(cfg, m) && !command.Hello?
    ensures var (after, response) := Execute(cfg, m, command, now);
            && OutputsInv(cfg, after) && Answers(cfg, command, response) && Truthful(after, response)
            && after.last == m.last && after.rejected == m.rejected
            && (command.Disable? ==> !after.enabled)
  {
  }

  lemma RepeatKeepsInv(cfg: Config, m: Machine, command: Command, now: real)
    requires ValidConfig(cfg) && Inv(cfg, m) && m.last.Some? && m.last.value.command == command
    ensures var (after, response) := Repeat(cfg, m, command, now);
            && Inv(cfg, after) && Truthful(after, response) && SequenceOf(response) == command.sequence
            && after == m.(deadline := after.deadline)
  {
  }

  lemma RememberKeepsInv(cfg: Config, m: Machine, command: Command, response: Response)
    requires OutputsInv(cfg, m) && RejectedInv(m.rejected)
    requires Answers(cfg, command, response) && Truthful(m, response) && (command.Disable? ==> !m.enabled)
    ensures Inv(cfg, Remember(m, command, response))
  {
  }

  /** Whatever is sent, in whatever order: the invariant is kept and the reply carries the number sent. */
  lemma HandleKeepsInv(cfg: Config, before: Machine, command: Command, now: real)
    requires ValidConfig(cfg) && Inv(cfg, before)
    ensures Inv(cfg, Tick(before, now))
    ensures var (after, response) := Handle(cfg, before, command, now);
            Inv(cfg, after) && SequenceOf(response) == command.sequence
  {
    TickKeepsInv(cfg, before, now);
    var m := Tick(before, now);
    match RouteOf(m, command)
    case NewSession =>
      RememberKeepsInv(cfg, m.(rejected := None), command, Ready(command.sequence, PROTOCOL_VERSION, FIRMWARE_VERSION));
    case Repeated =>
      RepeatKeepsInv(cfg, m, command, now);
    case Fresh =>
      ExecuteAnswers(cfg, m, command, now);
      var (after, response) := Execute(cfg, m, command, now);
      RememberKeepsInv(cfg, after, command, response);
    case _ =>
  }

  /** Every acknowledgement and status reports the pose and watchdog the firmware then has. */
  lemma RepliesAreTruthful(cfg: Config, m: Machine, command: Command, now: real)
    requires ValidConfig(cfg) && Inv(cfg, m)
    ensures var (after, response) := Handle(cfg, m, command, now);
            && (response.Ack? ==> response.pan == after.pan && response.tilt == after.tilt)
            && (response.Report? ==> response == StatusOf(after, command.sequence)
                                     && (response.enabled <==> response.watchdog.Armed?))
            && (response.Ready? ==> command.Hello?)
  {
    TickKeepsInv(cfg, m, now);
    var ticked := Tick(m, now);
    if RouteOf(ticked, command).Repeated? {
      RepeatKeepsInv(cfg, ticked, command, now);
    } else if RouteOf(ticked, command).Fresh? {
      ExecuteAnswers(cfg, ticked, command, now);
    }
  }

  /** Whatever bytes arrive as a frame: the reply is encodable, and nothing but a parsed command has an effect. */
  lemma FrameRepliesFit(cfg: Config, m: Machine, frame: string, now: real)
    requires ValidConfig(cfg) && Inv(cfg, m)
    ensures var (after, response) := HandleFrame(cfg, m, frame, now);
            && Inv(cfg, after)
            && |ResponseText(response)| <= 47
            && EncodeResponse(response) == Ok(ResponseText(response) + "\r\n")
            && (ParseCommand(frame).Err? ==> after == Tick(m, now))
  {
    FrameKeepsInv(cfg, m, frame, now);
    ShortResponseEncodes(HandleFrame(cfg, m, frame, now).1);
  }

  lemma FrameKeepsInv(cfg: Config, m: Machine, frame: string, now: real)
    requires ValidConfig(cfg) && Inv(cfg, m)
    ensures var (after, response) := HandleFrame(cfg, m, frame, now);
            && Inv(cfg, after)
            && (response.Ready? ==> response.protocol == PROTOCOL_VERSION && response.firmware == FIRMWARE_VERSION)
            && (ParseCommand(frame).Err? ==> after == Tick(m, now))
  {
    match ParseCommand(frame)
    case Ok(command) =>
      HandleKeepsInv(cfg, m, command, now);
      ReadyIsOwn(cfg, m, command, now);
    case Err(_) =>
      TickKeepsInv(cfg, m, now);
  }

  lemma ReadyIsOwn(cfg: Config, m: Machine, command: Command, now: real)
    requires ValidConfig(cfg) && Inv(cfg, m)
    ensures var response := Handle(cfg, m, command, now).1;
            response.Ready? ==> response.protocol == PROTOCOL_VERSION && response.firmware == FIRMWARE_VERSION
  {
    RepliesAreTruthful(cfg, m, command, now);
  }

  lemma ShortResponseEncodes(response: Response)
    requires response.Ready? ==> |response.protocol| <= 7 && |response.firmware| <= 7
    ensures |ResponseText(response)| <= 47
    ensures EncodeResponse(response) == Ok(ResponseText(response) + "\r\n")
  {
    ResponseTextFits(response);
  }

  // ---- the firmware object ----

  class FirmwareStateMachine {
    const cfg: Config
    var enabled: bool
    var pan: Degree
    var tilt: Degree
    var watchdog: Watchdog
    var deadline: Option<real>
    var lastSequence: Option<Sequence>
    var lastCommand: Option<Command>
    var lastResponse: Option<Response>
    var rejectedSet: Option<Memory>

    ghost predicate Valid()
      reads this
    {
      && lastSequence.Some? == lastCommand.Some? == lastResponse.Some?
      && (lastSequence.Some? ==> lastSequence.value == lastCommand.value.sequence)
      && Inv(cfg, Abstract())
    }

    ghost function Abstract(): Machine
      reads this
    {
      Machine(enabled, pan, tilt, watchdog, deadline,
              if lastCommand.Some? && lastResponse.Some? then Some(Memory(lastCommand.value, lastResponse.value)) else None,
              rejectedSet)
    }

    constructor (cfg: Config)
      requires ValidConfig(cfg)
      ensures this.cfg == cfg && Valid() && Abstract() == Initial(cfg)
    {
      this.cfg := cfg;
      enabled, pan, tilt, watchdog := false, cfg.neutralPan, cfg.neutralTilt, Idle;
      deadline, lastSequence, lastCommand, lastResponse, rejectedSet := None, None, None, None, None;
    }

    method DoTick(now: real)
      requires Valid()
      modifies `enabled, `watchdog, `deadline
      ensures Valid() && Abstract() == Tick(old(Abstract()), now)
    {
      TickKeepsInv(cfg, Abstract(), now);
      if enabled && deadline.Some? && now >= deadline.value {
        enabled := false;
        watchdog := Expired;
        deadline := None;
      }
    }

    method ArmWatchdog(now: real)
      modifies `watchdog, `deadline
      ensures watchdog == Armed && deadline == Some(now + cfg.timeout)
    {
      watchdog := Armed;
      deadline := Some(now + cfg.timeout);
    }

    method Apply(command: Command, now: real) returns (response: Response)
      requires !command.Hello?
      modifies `enabled, `pan, `tilt, `watchdog, `deadline
      ensures (Abstract(), response) == Execute(cfg, old(Abstract()), command, now)
    {
      var n := command.sequence;
      if command.Set? {
        if !(cfg.panMin <= command.pan <= cfg.panMax && cfg.tiltMin <= command.tilt <= cfg.tiltMax) {
          return Error(n, OutOfRange);
        }
        if !enabled {
          return Error(n, NotEnabled);
        }
        pan := command.pan;
        tilt := command.tilt;
        ArmWatchdog(now);
        return Ack(n, AckSet, pan, tilt);
      }
      if command.Enable? {
        enabled := true;
        pan := cfg.neutralPan;
        tilt := cfg.neutralTilt;
        ArmWatchdog(now);
        return Ack(n, AckEnable, pan, tilt);
      }
      if command.Disable? {
        enabled := false;
        watchdog := Idle;
        deadline := None;
        return Ack(n, AckDisable, pan, tilt);
      }
      if command.Center? {
        if !enabled {
          return Error(n, NotEnabled);
        }
        pan := cfg.neutralPan;
        tilt := cfg.neutralTilt;
        return Ack(n, AckCenter, pan, tilt);
      }
      return Report(n, enabled, pan, tilt, watchdog);
    }

    method DuplicateResponse(command: Command, now: real) returns (response: Response)
      requires lastCommand == Some(command) && lastResponse.Some?
      modifies `watchdog, `deadline
      ensures (Abstract(), response) == Repeat(cfg, old(Abstract()), command, now)
    {
      if command.Set? {
        if lastResponse.value.Error? {
          return lastResponse.value;
        }
        if !enabled {
          return Error(command.sequence, NotEnabled);
        }
        if lastResponse.value.Ack? {
          ArmWatchdog(now);
          return lastResponse.value;
        }
      }
      if command.Center? || command.Enable? {
        if !enabled {
          return Error(command.sequence, NotEnabled);
        }
      }
      if command.Status? {
        return Report(command.sequence, enabled, pan, tilt, watchdog);
      }
      return lastResponse.value;
    }

    method RememberExchange(command: Command, response: Response)
      modifies `lastSequence, `lastCommand, `lastResponse, `rejectedSet
      ensures Abstract() == Remember(old(Abstract()), command, response)
      ensures lastSequence == Some(command.sequence) && lastCommand.Some? && lastResponse.Some?
    {
      if rejectedSet.Some? && command.sequence == rejectedSet.value.command.sequence {
        rejectedSet := None;
      }
      lastSequence := Some(command.sequence);
      lastCommand := Some(command);
      lastResponse := Some(response);
      if command.Set? && response.Error? && response.code in {OutOfRange, NotEnabled} {
        rejectedSet := Some(Memory(command, response));
      }
    }

    method HandleCommand(command: Command, now: real) returns (response: Response)
      requires ValidConfig(cfg) && Valid()
      modifies this
      ensures Valid()
      ensures (Abstract(), response) == Handle(cfg, old(Abstract()), command, now)
    {
      HandleKeepsInv(cfg, Abstract(), command, now);
      DoTick(now);
      if command.Hello? {
        rejectedSet := None;
        response := Ready(command.sequence, PROTOCOL_VERSION, FIRMWARE_VERSION);
        RememberExchange(command, response);
      } else {
        response := HandleNumbered(command, now);
      }
    }

    /** The checks of the sequence number, in their order, and what follows each. */
    method HandleNumbered(command: Command, now: real) returns (response: Response)
      requires ValidConfig(cfg) && Valid() && !command.Hello?
      requires Inv(cfg, HandleTicked(cfg, Abstract(), command, now).0)
      modifies this
      ensures Valid()
      ensures (Abstract(), response) == HandleTicked(cfg, old(Abstract()), command, now)
    {
      if lastSequence.None? {
        return Error(command.sequence, BadSequence);
      }
      if command.sequence == lastSequence.value {
        if command != lastCommand.value {
          return Error(command.sequence, StaleSequence);
        }
        response := DuplicateResponse(command, now);
        return;
      }
      var expected := NextSequence(lastSequence.value);
      if rejectedSet.Some? && command.sequence == rejectedSet.value.command.sequence && command.sequence != expected {
        if command != rejectedSet.value.command {
          return Error(command.sequence, StaleSequence);
        }
        return rejectedSet.value.response;
      }
      if command.sequence != expected {
        return Error(command.sequence, BadSequence);
      }
      response := Apply(command, now);
      RememberExchange(command, response);
    }

    method ReplyToParsed(parsed: Result<Command, ProtocolError>, fallback: ReplySequence, now: real)
      returns (response: Response)
      requires ValidConfig(cfg) && Valid()
      modifies this
      ensures Valid()
      ensures (Abstract(), response) == HandleParsed(cfg, old(Abstract()), parsed, fallback, now)
    {
      TickKeepsInv(cfg, Abstract(), now);
      DoTick(now);
      match parsed {
        case Err(e) =>
          response := Error(fallback, CodeFor(e));
        case Ok(command) =>
          response := HandleCommand(command, now);
      }
    }

    method ReplyToFrame(frame: string, now: real) returns (reply: string)
      requires ValidConfig(cfg) && Valid()
      modifies this
      ensures Valid()
      ensures var (after, response) := HandleFrame(cfg, old(Abstract()), frame, now);
              Abstract() == after && reply == ResponseText(response) + "\r\n"
    {
      FrameRepliesFit(cfg, Abstract(), frame, now);
      var response := ReplyToParsed(ParseCommand(frame), BestEffortSequence(frame), now);
      reply := EncodeResponse(response).value;
    }
  }
}
